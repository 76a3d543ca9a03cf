/**
  AbrManager: choosing a variant from smoothed throughput with directional hysteresis.
  Throughput is a real number of Mbit/s.
 */
module Abr {
  import opened Wrappers
  import opened Numbers
  import opened Playlist

  function Mbps(v: Variant): real {
    v.bandwidth as real / 1000000.0
  }

  /** Length of the longest prefix of variants that fit the budget. */
  function FittingPrefix(vs: seq<Variant>, budget: real): (n: nat)
    ensures n <= |vs|
  {
    if vs == [] || Mbps(vs[0]) > budget then 0 else 1 + FittingPrefix(vs[1..], budget)
  }

  /** The last variant of that prefix, or the first variant of all when none fits. */
  function Ideal(vs: seq<Variant>, budget: real): (i: nat)
    ensures vs != [] ==> i < |vs|
  {
    var n := FittingPrefix(vs, budget);
    if n == 0 then 0 else n - 1
  }

  /** The share of the smoothed throughput that may be used. */
  function Budget(throughput: real): real {
    throughput * 0.8
  }

  datatype State = State(smoothed: real, upgrades: int, current: nat)

  const INITIAL := State(0.0, 0, 0)

  function Smooth(alpha: real, sample: real, smoothed: real): real {
    alpha * sample + (1.0 - alpha) * smoothed
  }

  function Hysteresis(s: State, ideal: nat): State {
    if ideal < s.current then s.(current := ideal, upgrades := 0)
    else if ideal > s.current then
      if s.upgrades + 1 >= 3 then s.(current := ideal, upgrades := 0)
      else s.(upgrades := s.upgrades + 1)
    else s.(upgrades := 0)
  }

  function Select(alpha: real, s: State, vs: seq<Variant>, sample: real): State {
    if s.smoothed == 0.0 then s.(smoothed := sample, current := Ideal(vs, Budget(sample)))
    else
      var smoothed := Smooth(alpha, sample, s.smoothed);
      Hysteresis(s.(smoothed := smoothed), Ideal(vs, Budget(smoothed)))
  }

  class AbrManager {
    const alpha: real
    var smoothedThroughput: real
    var consecutiveUpgrades: int
    var currentVariantIndex: nat

    function Value(): State
      reads this
    {
      State(smoothedThroughput, consecutiveUpgrades, currentVariantIndex)
    }

    constructor (smoothingFactor: real)
      ensures alpha == smoothingFactor && Value() == INITIAL
    {
      alpha := smoothingFactor;
      smoothedThroughput := 0.0;
      consecutiveUpgrades := 0;
      currentVariantIndex := 0;
    }

    method SelectVariant(variants: seq<Variant>, measured: real) returns (r: Result<Variant, string>)
      modifies this
      ensures variants == [] ==> r.Err? && Value() == old(Value())
      ensures variants != [] ==>
                && Value() == Select(alpha, old(Value()), variants, measured)
                && currentVariantIndex < |variants|
                && r == Ok(variants[currentVariantIndex])
      ensures variants != [] ==>
                currentVariantIndex == 0
                || variants[currentVariantIndex].bandwidth as real <= 800000.0 * smoothedThroughput
      ensures variants != [] && old(smoothedThroughput) == 0.0 ==>
                smoothedThroughput == measured && GreatestFitting(variants, measured, currentVariantIndex)
    {
      if variants == [] {
        return Err("AbrManager: Variant list cannot be empty.");
      }
      if smoothedThroughput == 0.0 {
        smoothedThroughput := measured;
        currentVariantIndex := CalculateIdealVariantIndex(variants);
        IdealInBits(variants, measured);
        return Ok(variants[currentVariantIndex]);
      }
      smoothedThroughput := alpha * measured + (1.0 - alpha) * smoothedThroughput;
      var ideal := CalculateIdealVariantIndex(variants);
      ApplyHysteresis(ideal);
      IdealInBits(variants, smoothedThroughput);
      r := Ok(variants[currentVariantIndex]);
    }

    method CalculateIdealVariantIndex(variants: seq<Variant>) returns (ideal: nat)
      ensures ideal == Ideal(variants, Budget(smoothedThroughput))
      ensures variants != [] ==> GreatestFitting(variants, smoothedThroughput, ideal)
      ensures ideal == 0
           || forall j | 0 <= j <= ideal :: variants[j].bandwidth as real <= 800000.0 * smoothedThroughput
    {
      ideal := 0;
      var budget := smoothedThroughput * 0.8;
      var i := 0;
      while i < |variants|
        invariant i <= |variants| && ideal == if i == 0 then 0 else i - 1
        invariant FittingPrefix(variants, budget) == i + FittingPrefix(variants[i..], budget)
      {
        if variants[i].bandwidth as real / 1000000.0 <= budget {
          ideal := i;
        } else {
          break;
        }
        i := i + 1;
      }
      if variants != [] {
        IdealInBits(variants, smoothedThroughput);
      }
    }

    method ApplyHysteresis(ideal: nat)
      modifies this
      ensures Value() == Hysteresis(old(Value()), ideal)
    {
      if ideal < currentVariantIndex {
        currentVariantIndex := ideal;
        consecutiveUpgrades := 0;
      } else if ideal > currentVariantIndex {
        consecutiveUpgrades := consecutiveUpgrades + 1;
        if consecutiveUpgrades >= 3 {
          currentVariantIndex := ideal;
          consecutiveUpgrades := 0;
        }
      } else {
        consecutiveUpgrades := 0;
      }
    }
  }

  // ---------- The scan ----------

  lemma {:induction false} PrefixFits(vs: seq<Variant>, budget: real)
    ensures forall j | 0 <= j < FittingPrefix(vs, budget) :: Mbps(vs[j]) <= budget
    ensures FittingPrefix(vs, budget) < |vs| ==> Mbps(vs[FittingPrefix(vs, budget)]) > budget
  {
    if vs != [] && Mbps(vs[0]) <= budget {
      PrefixFits(vs[1..], budget);
      forall j | 0 <= j < FittingPrefix(vs, budget) ensures Mbps(vs[j]) <= budget {
        if j > 0 {
          assert vs[j] == vs[1..][j - 1];
        }
      }
    }
  }

  /** On the sorted list the parser delivers, the early exit misses nothing. */
  lemma IdealIsGreatestFitting(vs: seq<Variant>, budget: real, j: nat)
    requires SortedByBandwidth(vs) && j < |vs|
    ensures Mbps(vs[j]) <= budget ==> j <= Ideal(vs, budget) && Mbps(vs[Ideal(vs, budget)]) <= budget
    ensures Ideal(vs, budget) < j ==> Mbps(vs[j]) > budget
  {
    PrefixFits(vs, budget);
    var n := FittingPrefix(vs, budget);
    if n <= j {
      assert vs[n].bandwidth <= vs[j].bandwidth;
    }
  }

  // ---------- In bits per second ----------

  /** Index i fits if any does, and on an ascending list no greater index fits. */
  ghost predicate GreatestFitting(vs: seq<Variant>, throughput: real, i: nat)
    requires i < |vs|
  {
    SortedByBandwidth(vs) ==>
      && (forall j | 0 <= j < |vs| && vs[j].bandwidth as real <= 800000.0 * throughput :: j <= i)
      && ((exists j | 0 <= j < |vs| :: vs[j].bandwidth as real <= 800000.0 * throughput) ==>
            vs[i].bandwidth as real <= 800000.0 * throughput)
  }

  lemma FitsInBits(v: Variant, throughput: real)
    ensures Mbps(v) <= Budget(throughput) <==> v.bandwidth as real <= 800000.0 * throughput
  {
  }

  /** Every variant up to the ideal one fits in four fifths of the throughput, or it is the first. */
  lemma IdealInBits(vs: seq<Variant>, throughput: real)
    requires vs != []
    ensures
      var ideal := Ideal(vs, Budget(throughput));
      && (ideal == 0 || forall j | 0 <= j <= ideal :: vs[j].bandwidth as real <= 800000.0 * throughput)
      && GreatestFitting(vs, throughput, ideal)
  {
    var b := Budget(throughput);
    PrefixFits(vs, b);
    forall j | 0 <= j < |vs| ensures Mbps(vs[j]) <= b <==> vs[j].bandwidth as real <= 800000.0 * throughput {
      FitsInBits(vs[j], throughput);
    }
    if SortedByBandwidth(vs) {
      forall j | 0 <= j < |vs| && vs[j].bandwidth as real <= 800000.0 * throughput
        ensures j <= Ideal(vs, b) && Mbps(vs[Ideal(vs, b)]) <= b
      {
        IdealIsGreatestFitting(vs, b, j);
      }
    }
  }

  // ---------- Whole histories ----------

  /** One call of selectVariant. The list may differ from call to call. */
  datatype Call = Call(variants: seq<Variant>, sample: real)

  ghost predicate IsHistory(alpha: real, states: seq<State>, calls: seq<Call>) {
    && |states| == |calls| + 1 && states[0] == INITIAL
    && forall k | 0 <= k < |calls| ::
         && calls[k].variants != [] && calls[k].sample >= 0.0
         && states[k + 1] == Select(alpha, states[k], calls[k].variants, calls[k].sample)
  }

  /** The ideal index call k compares with. */
  function IdealAt(states: seq<State>, calls: seq<Call>, k: nat): nat
    requires k < |calls| && |states| == |calls| + 1
  {
    Ideal(calls[k].variants, Budget(states[k + 1].smoothed))
  }

  /** After every call the current index is at most the ideal one: the choice fits or is the lowest. */
  lemma SelectionIsSafe(alpha: real, states: seq<State>, calls: seq<Call>, k: nat)
    requires IsHistory(alpha, states, calls) && k < |calls|
    ensures
      var current, vs := states[k + 1].current, calls[k].variants;
      && current <= IdealAt(states, calls, k) < |vs|
      && (current == 0 || Mbps(vs[current]) <= Budget(states[k + 1].smoothed))
  {
    PrefixFits(calls[k].variants, Budget(states[k + 1].smoothed));
    assert states[k + 1] == Select(alpha, states[k], calls[k].variants, calls[k].sample);
  }

  /**
    The same told in bits per second. After every call the selected variant needs at most 800,000
    bits per second for each Mbit/s of smoothed throughput, or is the first; the ideal index is the
    greatest of an ascending list that fits; and the first positive sample selects it at once.
   */
  lemma SelectionFitsBandwidth(alpha: real, states: seq<State>, calls: seq<Call>, k: nat)
    requires IsHistory(alpha, states, calls) && k < |calls|
    ensures
      var s, vs := states[k + 1], calls[k].variants;
      && s.current < |vs| && IdealAt(states, calls, k) < |vs|
      && (s.current == 0 || vs[s.current].bandwidth as real <= 800000.0 * s.smoothed)
      && GreatestFitting(vs, s.smoothed, IdealAt(states, calls, k))
      && (states[k].smoothed == 0.0 ==>
            s.smoothed == calls[k].sample && GreatestFitting(vs, calls[k].sample, s.current))
  {
    SelectionIsSafe(alpha, states, calls, k);
    IdealInBits(calls[k].variants, states[k + 1].smoothed);
    assert states[k + 1] == Select(alpha, states[k], calls[k].variants, calls[k].sample);
  }

  /** Call k is one more favourable measurement: better than the current index, which stays. */
  predicate Favourable(states: seq<State>, calls: seq<Call>, k: nat)
    requires k < |calls| && |states| == |calls| + 1
  {
    && states[k].smoothed != 0.0
    && IdealAt(states, calls, k) > states[k].current
    && states[k + 1].current == states[k].current
  }

  /** The counter between calls is 0, 1 or 2, and counts the favourable calls just made. */
  lemma {:induction false} CounterMeaning(alpha: real, states: seq<State>, calls: seq<Call>, k: nat)
    requires 0.0 < alpha < 1.0 && IsHistory(alpha, states, calls) && k < |states|
    ensures 0 <= states[k].upgrades <= 2 && states[k].upgrades <= k
    ensures states[k].smoothed >= 0.0 && (states[k].smoothed == 0.0 ==> states[k].upgrades == 0)
    ensures forall j | k - states[k].upgrades <= j < k :: Favourable(states, calls, j)
  {
    if k > 0 {
      CounterMeaning(alpha, states, calls, k - 1);
      var s := states[k - 1];
      assert states[k] == Select(alpha, s, calls[k - 1].variants, calls[k - 1].sample);
      SmoothStaysPositive(alpha, calls[k - 1].sample, s.smoothed);
    }
  }

  lemma SmoothStaysPositive(alpha: real, sample: real, smoothed: real)
    requires 0.0 < alpha < 1.0 && sample >= 0.0 && smoothed >= 0.0
    ensures Smooth(alpha, sample, smoothed) >= 0.0
    ensures smoothed > 0.0 ==> Smooth(alpha, sample, smoothed) > 0.0
  {
  }

  predicate Upgrade(states: seq<State>, k: nat)
    requires k + 1 < |states|
  {
    states[k].smoothed != 0.0 && states[k + 1].current > states[k].current
  }

  /**
    A call upgrades exactly when it is the third in a row whose ideal index exceeds a current
    index that has not moved; it then jumps to the ideal index.
   */
  lemma UpgradeIffThirdFavourable(alpha: real, states: seq<State>, calls: seq<Call>, k: nat)
    requires 0.0 < alpha < 1.0 && IsHistory(alpha, states, calls) && k < |calls|
    ensures Upgrade(states, k) <==>
              && k >= 2 && Favourable(states, calls, k - 2) && Favourable(states, calls, k - 1)
              && IdealAt(states, calls, k) > states[k].current
    ensures Upgrade(states, k) ==> states[k + 1].current == IdealAt(states, calls, k)
  {
    CounterMeaning(alpha, states, calls, k);
    assert states[k + 1] == Select(alpha, states[k], calls[k].variants, calls[k].sample);
    if k >= 2 && Favourable(states, calls, k - 2) && Favourable(states, calls, k - 1) {
      CounterMeaning(alpha, states, calls, k - 2);
      FavourableCounts(alpha, states, calls, k - 2);
      FavourableCounts(alpha, states, calls, k - 1);
    }
  }

  lemma FavourableCounts(alpha: real, states: seq<State>, calls: seq<Call>, j: nat)
    requires 0.0 < alpha < 1.0 && IsHistory(alpha, states, calls) && j < |calls|
    requires Favourable(states, calls, j)
    ensures states[j + 1].upgrades == states[j].upgrades + 1 < 3 && states[j + 1].smoothed != 0.0
  {
    CounterMeaning(alpha, states, calls, j);
    assert states[j + 1] == Select(alpha, states[j], calls[j].variants, calls[j].sample);
    SmoothStaysPositive(alpha, calls[j].sample, states[j].smoothed);
  }

  function Upgrades(states: seq<State>, i: nat, j: nat): nat
    requires i <= j < |states|
  {
    if i == j then 0 else Upgrades(states, i, j - 1) + if Upgrade(states, j - 1) then 1 else 0
  }

  lemma UpgradeCosts(alpha: real, s: State, vs: seq<Variant>, sample: real)
    requires 0 <= s.upgrades <= 2
    ensures
      var s' := Select(alpha, s, vs, sample);
      (if s.smoothed != 0.0 && s'.current > s.current then 3 else 0) + s'.upgrades <= 1 + s.upgrades
  {
  }

  /** Any k consecutive calls contain at most k / 3 upgrades, rounded up. */
  lemma {:induction false} UpgradesAreRare(alpha: real, states: seq<State>, calls: seq<Call>, i: nat, j: nat)
    requires 0.0 < alpha < 1.0 && IsHistory(alpha, states, calls) && i <= j < |states|
    ensures Upgrades(states, i, j) <= (j - i + 2) / 3
  {
    UpgradesArePaidFor(alpha, states, calls, i, j);
    CounterMeaning(alpha, states, calls, i);
    CounterMeaning(alpha, states, calls, j);
  }

  lemma {:induction false} UpgradesArePaidFor(alpha: real, states: seq<State>, calls: seq<Call>, i: nat, j: nat)
    requires 0.0 < alpha < 1.0 && IsHistory(alpha, states, calls) && i <= j < |states|
    ensures 3 * Upgrades(states, i, j) + states[j].upgrades <= j - i + states[i].upgrades
    decreases j
  {
    if i < j {
      UpgradesArePaidFor(alpha, states, calls, i, j - 1);
      CounterMeaning(alpha, states, calls, j - 1);
      var s, call := states[j - 1], calls[j - 1];
      assert states[j] == Select(alpha, s, call.variants, call.sample);
      UpgradeCosts(alpha, s, call.variants, call.sample);
    }
  }

  // ---------- Convergence ----------

  /** n calls with the same list and the same sample. */
  function Repeat(alpha: real, s: State, vs: seq<Variant>, sample: real, n: nat): State {
    if n == 0 then s else Select(alpha, Repeat(alpha, s, vs, sample, n - 1), vs, sample)
  }

  /** Like FittingPrefix, for variants strictly below the budget. */
  function PrefixBelow(vs: seq<Variant>, budget: real): (n: nat)
    ensures n <= |vs|
  {
    if vs == [] || Mbps(vs[0]) >= budget then 0 else 1 + PrefixBelow(vs[1..], budget)
  }

  function IdealBelow(vs: seq<Variant>, budget: real): nat {
    var n := PrefixBelow(vs, budget);
    if n == 0 then 0 else n - 1
  }

  /**
    Where the choice settles under a constant sample: smoothed throughput that comes down to it
    (or is the sample itself) sees the variants that fit, smoothed throughput that comes up to
    it never quite sees one that needs the whole budget.
   */
  function Limit(vs: seq<Variant>, sample: real, start: real): nat {
    if start == 0.0 || start >= sample then Ideal(vs, Budget(sample)) else IdealBelow(vs, Budget(sample))
  }

  lemma MulLe(p: real, a: real, b: real)
    requires p >= 0.0 && a <= b
    ensures p * a <= p * b
  {
  }

  lemma MulLt(p: real, a: real, b: real)
    requires p > 0.0 && a < b
    ensures p * a < p * b
  {
  }

  function Distance(above: bool, m: real, x: real): real {
    if above then x - m else m - x
  }

  /** How far the smoothed throughput starts from the sample. */
  function StartError(s: State, sample: real): real {
    Distance(s.smoothed >= sample, sample, s.smoothed)
  }

  /** What one call leaves of an error. */
  function Shrink(alpha: real, error: real): real {
    (1.0 - alpha) * error
  }

  lemma ShrinkBounds(alpha: real, error: real)
    requires 0.0 < alpha < 1.0 && error >= 0.0
    ensures 0.0 <= Shrink(alpha, error) <= error && (error > 0.0 ==> Shrink(alpha, error) > 0.0)
  {
    MulLe(error, 1.0 - alpha, 1.0);
    MulLe(error, 0.0, 1.0 - alpha);
    if error > 0.0 {
      MulLt(error, 0.0, 1.0 - alpha);
    }
  }

  /** What is left of an error after n calls. */
  function ErrorAfter(alpha: real, error: real, n: nat): real {
    if n == 0 then error else Shrink(alpha, ErrorAfter(alpha, error, n - 1))
  }

  function Product(a: real, b: real): real {
    a * b
  }

  function Geometric(ratio: real, first: real, n: nat): real {
    Product(Pow(ratio, n), first)
  }

  lemma {:induction false} ErrorIsGeometric(alpha: real, error: real, n: nat)
    ensures ErrorAfter(alpha, error, n) == Geometric(1.0 - alpha, error, n)
  {
    if n > 0 {
      ErrorIsGeometric(alpha, error, n - 1);
      MulAssociates(1.0 - alpha, Pow(1.0 - alpha, n - 1), error);
    }
  }

  lemma MulAssociates(a: real, b: real, c: real)
    ensures a * (b * c) == (a * b) * c
  {
  }

  lemma SmoothDistance(alpha: real, above: bool, m: real, x: real)
    ensures Distance(above, m, Smooth(alpha, m, x)) == Shrink(alpha, Distance(above, m, x))
  {
  }

  /** Once started, the smoothed throughput stays positive and every call smooths it. */
  lemma {:induction false} RepeatSmooths(alpha: real, s: State, vs: seq<Variant>, sample: real, n: nat)
    requires 0.0 < alpha < 1.0 && s.smoothed > 0.0 && sample > 0.0
    ensures Repeat(alpha, s, vs, sample, n).smoothed > 0.0
    ensures n > 0 ==> Repeat(alpha, s, vs, sample, n).smoothed
                      == Smooth(alpha, sample, Repeat(alpha, s, vs, sample, n - 1).smoothed)
  {
    if n > 0 {
      RepeatSmooths(alpha, s, vs, sample, n - 1);
      SmoothStaysPositive(alpha, sample, Repeat(alpha, s, vs, sample, n - 1).smoothed);
    }
  }

  /** The smoothed throughput after n equal samples, starting from x. */
  function SmoothedAfter(alpha: real, sample: real, x: real, n: nat): real {
    if n == 0 then x else Smooth(alpha, sample, SmoothedAfter(alpha, sample, x, n - 1))
  }

  lemma {:induction false} RepeatIsSmoothed(alpha: real, s: State, vs: seq<Variant>, sample: real, n: nat)
    requires 0.0 < alpha < 1.0 && s.smoothed > 0.0 && sample > 0.0
    ensures Repeat(alpha, s, vs, sample, n).smoothed == SmoothedAfter(alpha, sample, s.smoothed, n)
  {
    if n > 0 {
      RepeatIsSmoothed(alpha, s, vs, sample, n - 1);
      RepeatSmooths(alpha, s, vs, sample, n);
    }
  }

  lemma {:induction false} SmoothedError(alpha: real, above: bool, sample: real, x: real, n: nat)
    ensures Distance(above, sample, SmoothedAfter(alpha, sample, x, n))
         == ErrorAfter(alpha, Distance(above, sample, x), n)
  {
    if n > 0 {
      SmoothedError(alpha, above, sample, x, n - 1);
      SmoothDistance(alpha, above, sample, SmoothedAfter(alpha, sample, x, n - 1));
    }
  }

  lemma ErrorShrinks(alpha: real, s: State, vs: seq<Variant>, sample: real, n: nat)
    requires 0.0 < alpha < 1.0 && s.smoothed > 0.0 && sample > 0.0
    ensures Distance(s.smoothed >= sample, sample, Repeat(alpha, s, vs, sample, n).smoothed)
         == ErrorAfter(alpha, StartError(s, sample), n)
  {
    RepeatIsSmoothed(alpha, s, vs, sample, n);
    SmoothedError(alpha, s.smoothed >= sample, sample, s.smoothed, n);
  }

  /** Under a constant sample the error keeps its side and decays by exactly 1 - alpha a call. */
  lemma ErrorDecays(alpha: real, s: State, vs: seq<Variant>, sample: real, n: nat)
    requires 0.0 < alpha < 1.0 && s.smoothed > 0.0 && sample > 0.0
    ensures Distance(s.smoothed >= sample, sample, Repeat(alpha, s, vs, sample, n).smoothed)
         == Geometric(1.0 - alpha, StartError(s, sample), n)
  {
    ErrorShrinks(alpha, s, vs, sample, n);
    ErrorIsGeometric(alpha, StartError(s, sample), n);
  }

  /** The decay is at least that of 1 / (1 + n * alpha). */
  lemma {:induction false} DecayBound(alpha: real, n: nat)
    requires 0.0 < alpha < 1.0
    ensures 0.0 < Pow(1.0 - alpha, n) && Product(n as real, alpha) >= 0.0
    ensures Product(Pow(1.0 - alpha, n), 1.0 + Product(n as real, alpha)) <= 1.0
  {
    PowPositive(1.0 - alpha, n);
    MulLe(alpha, 0.0, n as real);
    if n > 0 {
      DecayBound(alpha, n - 1);
      BernoulliStep(alpha, Pow(1.0 - alpha, n - 1), Product((n - 1) as real, alpha));
      assert Product(n as real, alpha) == Product((n - 1) as real, alpha) + alpha;
    }
  }

  lemma BernoulliStep(alpha: real, p: real, y: real)
    requires 0.0 < alpha < 1.0 && p > 0.0 && y >= 0.0 && Product(p, 1.0 + y) <= 1.0
    ensures Product((1.0 - alpha) * p, 1.0 + (y + alpha)) <= 1.0
  {
    var factor := (1.0 - alpha) * (1.0 + (y + alpha));
    MulLe(alpha, 0.0, y);
    MulLe(alpha, 0.0, alpha);
    assert factor == 1.0 + y - alpha * y - alpha * alpha;
    MulLe(p, factor, 1.0 + y);
    assert (1.0 - alpha) * p * (1.0 + (y + alpha)) == p * factor;
  }

  lemma {:induction false} ErrorGoesOn(alpha: real, error: real, n: nat, m: nat)
    requires 0.0 < alpha < 1.0 && error >= 0.0 && n <= m
    ensures 0.0 <= ErrorAfter(alpha, error, m) <= ErrorAfter(alpha, error, n)
    ensures error > 0.0 ==> ErrorAfter(alpha, error, m) > 0.0
    decreases m
  {
    if m > 0 {
      ErrorGoesOn(alpha, error, if n < m then n else m - 1, m - 1);
      ShrinkBounds(alpha, ErrorAfter(alpha, error, m - 1));
    }
  }

  /** How far above a budget the scan sees what it sees at the budget. */
  function GapAbove(vs: seq<Variant>, budget: real): (gap: real)
    ensures gap > 0.0
  {
    if vs == [] then 1.0
    else if Mbps(vs[0]) > budget then Mbps(vs[0]) - budget
    else GapAbove(vs[1..], budget)
  }

  lemma {:induction false} ScanAbove(vs: seq<Variant>, budget: real, b: real)
    requires budget <= b < budget + GapAbove(vs, budget)
    ensures FittingPrefix(vs, b) == FittingPrefix(vs, budget)
  {
    if vs != [] && Mbps(vs[0]) <= budget {
      ScanAbove(vs[1..], budget, b);
    }
  }

  /** How far below a budget the scan sees just the variants strictly below it. */
  function GapBelow(vs: seq<Variant>, budget: real): (gap: real)
    ensures gap > 0.0
  {
    if vs == [] || Mbps(vs[0]) >= budget then 1.0
    else
      var gap := GapBelow(vs[1..], budget);
      if gap > budget - Mbps(vs[0]) then budget - Mbps(vs[0]) else gap
  }

  lemma {:induction false} ScanBelow(vs: seq<Variant>, budget: real, b: real)
    requires budget - GapBelow(vs, budget) < b < budget
    ensures FittingPrefix(vs, b) == PrefixBelow(vs, budget)
  {
    if vs != [] && Mbps(vs[0]) < budget {
      ScanBelow(vs[1..], budget, b);
    }
  }

  /** An error below this no longer matters to the scan. */
  function Tolerance(vs: seq<Variant>, sample: real, above: bool): (gap: real)
    ensures gap > 0.0
  {
    (if above then GapAbove(vs, Budget(sample)) else GapBelow(vs, Budget(sample))) / 0.8
  }

  /** The error after n calls is below the tolerance. */
  predicate CloseEnough(alpha: real, s: State, vs: seq<Variant>, sample: real, n: nat) {
    ErrorAfter(alpha, StartError(s, sample), n) < Tolerance(vs, sample, s.smoothed >= sample)
  }

  /** The ideal index after n calls with the same sample. */
  function IdealAfter(alpha: real, s: State, vs: seq<Variant>, sample: real, n: nat): nat {
    Ideal(vs, Budget(Repeat(alpha, s, vs, sample, n).smoothed))
  }

  lemma IdealWhenClose(vs: seq<Variant>, sample: real, above: bool, x: real)
    requires Distance(above, sample, x) < Tolerance(vs, sample, above)
    requires if above then sample <= x else x < sample
    ensures Ideal(vs, Budget(x)) == if above then Ideal(vs, Budget(sample)) else IdealBelow(vs, Budget(sample))
  {
    if above {
      ScanAbove(vs, Budget(sample), Budget(x));
    } else {
      ScanBelow(vs, Budget(sample), Budget(x));
    }
  }

  /** Once the error is below the tolerance, the ideal index is the limit and stays. */
  lemma IdealSettles(alpha: real, s: State, vs: seq<Variant>, sample: real, n: nat, m: nat)
    requires 0.0 < alpha < 1.0 && s.smoothed > 0.0 && sample > 0.0
    requires n <= m && CloseEnough(alpha, s, vs, sample, n)
    ensures IdealAfter(alpha, s, vs, sample, m) == Limit(vs, sample, s.smoothed)
  {
    var x := Repeat(alpha, s, vs, sample, m).smoothed;
    ErrorShrinks(alpha, s, vs, sample, m);
    ErrorGoesOn(alpha, StartError(s, sample), n, m);
    IdealWhenClose(vs, sample, s.smoothed >= sample, x);
  }

  /** So many calls are enough for the error to fall below the tolerance. */
  function EnoughCalls(alpha: real, s: State, vs: seq<Variant>, sample: real): (n: nat)
    requires alpha > 0.0
  {
    var error, gap := StartError(s, sample), Tolerance(vs, sample, s.smoothed >= sample);
    QuotientPositive(error, gap, alpha);
    (error / gap / alpha).Floor + 1
  }

  lemma QuotientPositive(error: real, gap: real, alpha: real)
    requires error >= 0.0 && gap > 0.0 && alpha > 0.0
    ensures error / gap / alpha >= 0.0
  {
    DivPositive(error, gap);
    DivPositive(error / gap, alpha);
  }

  lemma DivPositive(a: real, b: real)
    requires a >= 0.0 && b > 0.0
    ensures a / b >= 0.0
  {
  }

  lemma EnoughCallsSuffice(alpha: real, s: State, vs: seq<Variant>, sample: real)
    requires 0.0 < alpha < 1.0
    ensures CloseEnough(alpha, s, vs, sample, EnoughCalls(alpha, s, vs, sample))
  {
    var error, gap := StartError(s, sample), Tolerance(vs, sample, s.smoothed >= sample);
    var n := EnoughCalls(alpha, s, vs, sample);
    QuotientPositive(error, gap, alpha);
    ErrorFallsBelow(error, gap, alpha, n);
  }

  lemma ErrorFallsBelow(error: real, gap: real, alpha: real, n: nat)
    requires error >= 0.0 && gap > 0.0 && 0.0 < alpha < 1.0 && n as real > error / gap / alpha
    ensures ErrorAfter(alpha, error, n) < gap
  {
    var y, p := Product(n as real, alpha), Pow(1.0 - alpha, n);
    DecayBound(alpha, n);
    QuotientBound(error, gap, alpha, n as real);
    DecayBeatsError(error, gap, y, p);
    ErrorIsGeometric(alpha, error, n);
  }

  lemma QuotientBound(error: real, gap: real, alpha: real, n: real)
    requires gap > 0.0 && alpha > 0.0 && n > error / gap / alpha
    ensures Product(gap, Product(n, alpha)) > error
  {
    TimesDivisor(error / gap, alpha, n);
    TimesDivisor(error, gap, Product(n, alpha));
  }

  lemma TimesDivisor(a: real, b: real, q: real)
    requires b > 0.0 && q > a / b
    ensures Product(q, b) > a && Product(b, q) > a
  {
    MulLt(b, a / b, q);
  }

  lemma DecayBeatsError(error: real, gap: real, y: real, p: real)
    requires gap > 0.0 && p > 0.0 && Product(p, 1.0 + y) <= 1.0 && Product(gap, y) > error
    ensures Product(p, error) < gap
  {
    var raised := gap * (1.0 + y);
    assert raised == gap + gap * y;
    MulLt(p, error, raised);
    MulAssociates(p, gap, 1.0 + y);
    MulAssociates(gap, p, 1.0 + y);
    MulLe(gap, p * (1.0 + y), 1.0);
  }

  /** One hysteresis step under the ideal index given. */
  predicate Stepped(now: State, next: State, ideal: nat) {
    var h := Hysteresis(now, ideal);
    next.current == h.current && next.upgrades == h.upgrades
  }

  lemma RepeatStep(alpha: real, s: State, vs: seq<Variant>, sample: real, n: nat)
    requires 0.0 < alpha < 1.0 && s.smoothed > 0.0 && sample > 0.0
    ensures Stepped(Repeat(alpha, s, vs, sample, n), Repeat(alpha, s, vs, sample, n + 1),
                    IdealAfter(alpha, s, vs, sample, n + 1))
  {
    RepeatSmooths(alpha, s, vs, sample, n);
  }

  lemma ThreeStepsReach(s0: State, s1: State, s2: State, s3: State, ideal: nat)
    requires 0 <= s0.upgrades <= 2 && Stepped(s0, s1, ideal) && Stepped(s1, s2, ideal) && Stepped(s2, s3, ideal)
    ensures s3.current == ideal
  {
  }

  lemma StepStays(now: State, next: State, ideal: nat)
    requires now.current == ideal && Stepped(now, next, ideal)
    ensures next.current == ideal
  {
  }

  /** Under a constant ideal index, hysteresis needs at most three calls to reach it, and stays. */
  lemma {:induction false} HysteresisSettles(alpha: real, s: State, vs: seq<Variant>, sample: real, n: nat, m: nat,
                                             ideal: nat)
    requires 0.0 < alpha < 1.0 && s.smoothed > 0.0 && sample > 0.0
    requires forall k | k >= n :: IdealAfter(alpha, s, vs, sample, k) == ideal
    requires 0 <= Repeat(alpha, s, vs, sample, n).upgrades <= 2
    requires m >= n + 3
    ensures Repeat(alpha, s, vs, sample, m).current == ideal
    decreases m
  {
    RepeatStep(alpha, s, vs, sample, m - 1);
    var last, next := Repeat(alpha, s, vs, sample, m - 1), Repeat(alpha, s, vs, sample, m);
    if m == n + 3 {
      RepeatStep(alpha, s, vs, sample, n);
      RepeatStep(alpha, s, vs, sample, n + 1);
      ThreeStepsReach(Repeat(alpha, s, vs, sample, n), Repeat(alpha, s, vs, sample, n + 1), last, next, ideal);
    } else {
      HysteresisSettles(alpha, s, vs, sample, n, m - 1, ideal);
      StepStays(last, next, ideal);
    }
  }

  lemma {:induction false} CounterStaysSmall(alpha: real, s: State, vs: seq<Variant>, sample: real, n: nat)
    requires 0 <= s.upgrades <= 2
    ensures 0 <= Repeat(alpha, s, vs, sample, n).upgrades <= 2
  {
    if n > 0 {
      CounterStaysSmall(alpha, s, vs, sample, n - 1);
    }
  }

  lemma {:induction false} RepeatFromSecond(alpha: real, s: State, vs: seq<Variant>, sample: real, n: nat)
    ensures Repeat(alpha, s, vs, sample, n + 1) == Repeat(alpha, Select(alpha, s, vs, sample), vs, sample, n)
  {
    if n > 0 {
      RepeatFromSecond(alpha, s, vs, sample, n - 1);
    }
  }

  /** Three calls after the error has fallen below the tolerance, the selected index is the limit for good. */
  lemma SelectionSettlesWhenClose(alpha: real, s: State, vs: seq<Variant>, sample: real, n: nat)
    requires 0.0 < alpha < 1.0 && s.smoothed > 0.0 && 0 <= s.upgrades <= 2 && sample > 0.0
    requires CloseEnough(alpha, s, vs, sample, n)
    ensures forall m | m >= n + 3 :: Repeat(alpha, s, vs, sample, m).current == Limit(vs, sample, s.smoothed)
  {
    CounterStaysSmall(alpha, s, vs, sample, n);
    forall k | k >= n ensures IdealAfter(alpha, s, vs, sample, k) == Limit(vs, sample, s.smoothed) {
      IdealSettles(alpha, s, vs, sample, n, k);
    }
    forall m | m >= n + 3 ensures Repeat(alpha, s, vs, sample, m).current == Limit(vs, sample, s.smoothed) {
      HysteresisSettles(alpha, s, vs, sample, n, m, Limit(vs, sample, s.smoothed));
    }
  }

  /** A number of calls after which the selected index no longer changes. */
  function SettlingCalls(alpha: real, s: State, vs: seq<Variant>, sample: real): nat
    requires alpha > 0.0
  {
    if s.smoothed == 0.0 then EnoughCalls(alpha, Select(alpha, s, vs, sample), vs, sample) + 4
    else EnoughCalls(alpha, s, vs, sample) + 3
  }

  /**
    Convergence: whatever happened before, once every call has the same list and the same
    positive sample, the selected index is the limit from a known call on. Nothing is asked of
    the list, and ties with the budget are allowed.
   */
  lemma SelectionConverges(alpha: real, s: State, vs: seq<Variant>, sample: real)
    requires 0.0 < alpha < 1.0 && s.smoothed >= 0.0 && 0 <= s.upgrades <= 2 && sample > 0.0
    ensures forall m | m >= SettlingCalls(alpha, s, vs, sample) ::
              Repeat(alpha, s, vs, sample, m).current == Limit(vs, sample, s.smoothed)
  {
    if s.smoothed > 0.0 {
      EnoughCallsSuffice(alpha, s, vs, sample);
      SelectionSettlesWhenClose(alpha, s, vs, sample, EnoughCalls(alpha, s, vs, sample));
    } else {
      var first := Select(alpha, s, vs, sample);
      EnoughCallsSuffice(alpha, first, vs, sample);
      SelectionSettlesWhenClose(alpha, first, vs, sample, EnoughCalls(alpha, first, vs, sample));
      forall m | m >= SettlingCalls(alpha, s, vs, sample)
        ensures Repeat(alpha, s, vs, sample, m).current == Limit(vs, sample, s.smoothed)
      {
        RepeatFromSecond(alpha, s, vs, sample, m - 1);
      }
    }
  }

  /**
    The limit is the ideal index for the sample itself, wherever one starts, exactly when no
    variant up to that index needs the whole budget (or that index is 0 anyway).
   */
  lemma {:induction false} LimitIsIdealIff(vs: seq<Variant>, sample: real)
    requires sample > 0.0
    ensures (forall start | start >= 0.0 :: Limit(vs, sample, start) == Ideal(vs, Budget(sample)))
       <==> Ideal(vs, Budget(sample)) == 0
            || forall j | 0 <= j <= Ideal(vs, Budget(sample)) :: Mbps(vs[j]) != Budget(sample)
  {
    var b := Budget(sample);
    PrefixFits(vs, b);
    PrefixBelowExact(vs, b);
    assert Limit(vs, sample, sample / 2.0) == IdealBelow(vs, b);
  }

  lemma {:induction false} PrefixBelowExact(vs: seq<Variant>, budget: real)
    ensures PrefixBelow(vs, budget) <= FittingPrefix(vs, budget)
    ensures PrefixBelow(vs, budget) == FittingPrefix(vs, budget)
       <==> forall j | 0 <= j < FittingPrefix(vs, budget) :: Mbps(vs[j]) != budget
  {
    if vs != [] && Mbps(vs[0]) <= budget {
      PrefixBelowExact(vs[1..], budget);
      var n := FittingPrefix(vs[1..], budget);
      assert forall j | 0 <= j < n :: vs[1..][j] == vs[j + 1];
      assert (forall j | 0 <= j < n + 1 :: Mbps(vs[j]) != budget)
        <==> Mbps(vs[0]) != budget && forall j | 0 <= j < n :: Mbps(vs[1..][j]) != budget by {
        forall j | 1 <= j < n + 1 ensures vs[j] == vs[1..][j - 1] { }
      }
    }
  }
}
