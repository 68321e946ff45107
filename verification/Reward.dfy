/**
 * The KPI reward: threshold and cap, the five reward types, the tier loop, and the schema's check of
 * a tier list. Percentages and rates are exact; a reward is an `int` number of cents.
 */
module Reward {
  import opened Options
  import opened Decimals

  datatype RewardType = Fixed | PercentOfSalary | PerUnit | Tiered | PenaltyPercent

  datatype Tier = Tier(from: real, to: real, multiplier: real)

  datatype Template = Template(
    threshold: real, cap: Option<real>, rewardType: RewardType, amount: real, target: real, tiers: seq<Tier>)

  /** The bounds the template schema puts on every number. */
  predicate WithinSchema(t: Template) {
    0.0 <= t.threshold && (t.cap.Some? ==> 0.0 <= t.cap.value) && 0.0 <= t.amount && 0.0 <= t.target
    && forall tier :: tier in t.tiers ==> 0.0 <= tier.from && 0.0 <= tier.to && 0.0 <= tier.multiplier
  }

  // ---- Tiers ----------------------------------------------------------------------------------

  ghost predicate Ordered(tiers: seq<Tier>) {
    forall i, j :: 0 <= i < j < |tiers| ==> tiers[i].from <= tiers[j].from
  }

  function Insert(t: Tier, sorted: seq<Tier>): seq<Tier> {
    if sorted == [] || t.from <= sorted[0].from then [t] + sorted
    else [sorted[0]] + Insert(t, sorted[1..])
  }

  lemma InFront(t: Tier, s: seq<Tier>)
    ensures multiset([t] + s) == multiset{t} + multiset(s)
  {
  }

  lemma {:induction false} InsertPermutes(t: Tier, sorted: seq<Tier>)
    ensures multiset(Insert(t, sorted)) == multiset{t} + multiset(sorted)
  {
    if sorted != [] && sorted[0].from < t.from {
      InsertPermutes(t, sorted[1..]);
      assert Insert(t, sorted) == [sorted[0]] + Insert(t, sorted[1..]);
      hide Insert;
      InFront(sorted[0], Insert(t, sorted[1..]));
      InFront(sorted[0], sorted[1..]);
      assert sorted == [sorted[0]] + sorted[1..];
    }
  }

  lemma {:induction false} InsertSorts(t: Tier, sorted: seq<Tier>)
    requires Ordered(sorted)
    ensures Ordered(Insert(t, sorted))
  {
    if sorted != [] && sorted[0].from < t.from {
      var rest := Insert(t, sorted[1..]);
      InsertSorts(t, sorted[1..]);
      InsertPermutes(t, sorted[1..]);
      assert Insert(t, sorted) == [sorted[0]] + rest;
      hide Insert;
      forall x | x in rest ensures sorted[0].from <= x.from {
        assert x in multiset(rest);
        assert x == t || x in sorted[1..];
      }
    }
  }

  lemma InsertionStep(t: Tier, sorted: seq<Tier>, tiers: seq<Tier>)
    requires Ordered(sorted) && multiset(sorted) == multiset(tiers) && |sorted| == |tiers|
    ensures var r := Insert(t, sorted);
            Ordered(r) && multiset(r) == multiset([t] + tiers) && |r| == |tiers| + 1
  {
    InsertSorts(t, sorted);
    InsertPermutes(t, sorted);
    InFront(t, tiers);
    hide Insert;
    assert |multiset(Insert(t, sorted))| == |Insert(t, sorted)|;
    assert |multiset([t] + tiers)| == |tiers| + 1;
  }

  /** `sorted(tiers, key=from_pct)`: stable, because each tier is inserted before its equals. */
  function SortTiers(tiers: seq<Tier>): (r: seq<Tier>)
    ensures Ordered(r) && multiset(r) == multiset(tiers) && |r| == |tiers|
  {
    if tiers == [] then []
    else
      var rest := SortTiers(tiers[1..]);
      InsertionStep(tiers[0], rest, tiers[1..]);
      assert tiers == [tiers[0]] + tiers[1..];
      Insert(tiers[0], rest)
  }

  /** Non-empty half-open brackets, no two of which share a score, and none listed twice. */
  ghost predicate Disjoint(tiers: multiset<Tier>) {
    && (forall t :: t in tiers ==> t.from < t.to && tiers[t] == 1)
    && (forall a, b :: a in tiers && b in tiers && a != b ==> a.to <= b.from || b.to <= a.from)
  }

  /** The schema's validator: it accepts exactly the lists of disjoint brackets, and returns them sorted. */
  method ValidateTiers(tiers: seq<Tier>) returns (result: Option<seq<Tier>>)
    ensures result.Some? <==> Disjoint(multiset(tiers))
    ensures result.Some? ==> result.value == SortTiers(tiers) && Chained(result.value)
  {
    hide Disjoint, Insert;
    if tiers == [] {
      ChainedIsDisjoint([]);
      return Some([]);
    }
    var s := SortTiers(tiers);
    ChainedIffDisjoint(s);
    for i := 0 to |s|
      invariant forall j :: 0 <= j < i ==> s[j].from < s[j].to
      invariant forall j :: 0 < j < i ==> s[j - 1].to <= s[j].from
    {
      if s[i].from >= s[i].to || (i > 0 && s[i].from < s[i - 1].to) {
        assert !Chained(s);
        return None;
      }
    }
    result := Some(s);
  }

  ghost predicate Chained(s: seq<Tier>) {
    && (forall i :: 0 <= i < |s| ==> s[i].from < s[i].to)
    && (forall i :: 0 < i < |s| ==> s[i - 1].to <= s[i].from)
  }

  lemma EmptyBracketFound(s: seq<Tier>, i: nat)
    requires i < |s| && s[i].to <= s[i].from
    ensures !Disjoint(multiset(s))
  {
  }

  lemma OverlapFound(s: seq<Tier>, i: nat)
    requires 0 < i < |s| && Ordered(s) && s[i].from < s[i].to && s[i].from < s[i - 1].to
    ensures !Disjoint(multiset(s))
  {
    var a, b := s[i - 1], s[i];
    assert a in multiset(s) && b in multiset(s);
    if a == b {
      assert s == s[..i - 1] + [a] + [b] + s[i + 1..];
      assert multiset(s)[a] >= 2;
    }
  }

  lemma {:induction false} ChainedEndsBefore(s: seq<Tier>, i: nat, j: nat)
    requires Chained(s) && i < j < |s|
    ensures s[i].to <= s[j].from
  {
    if i < j - 1 {
      ChainedEndsBefore(s, i, j - 1);
    }
  }

  lemma {:induction false} ChainedOnce(s: seq<Tier>, t: Tier)
    requires Chained(s)
    ensures multiset(s)[t] <= 1
  {
    var n := |s|;
    if n > 0 {
      ChainedOnce(s[..n - 1], t);
      assert s == s[..n - 1] + [s[n - 1]];
      if t == s[n - 1] && t in s[..n - 1] {
        var i :| 0 <= i < n - 1 && s[i] == t;
        ChainedEndsBefore(s, i, n - 1);
      }
    }
  }

  lemma ChainedIsDisjoint(s: seq<Tier>)
    requires Chained(s)
    ensures Disjoint(multiset(s))
  {
    forall t | t in multiset(s) ensures t.from < t.to && multiset(s)[t] == 1 {
      assert t in s;
      ChainedOnce(s, t);
    }
    forall a, b | a in multiset(s) && b in multiset(s) && a != b ensures a.to <= b.from || b.to <= a.from {
      var i :| 0 <= i < |s| && s[i] == a;
      var j :| 0 <= j < |s| && s[j] == b;
      if i < j { ChainedEndsBefore(s, i, j); } else { ChainedEndsBefore(s, j, i); }
    }
  }

  lemma ChainedIffDisjoint(s: seq<Tier>)
    requires Ordered(s)
    ensures Chained(s) <==> Disjoint(multiset(s))
  {
    if i :| 0 <= i < |s| && s[i].to <= s[i].from {
      EmptyBracketFound(s, i);
    } else if i :| 0 < i < |s| && s[i].from < s[i - 1].to {
      OverlapFound(s, i);
    } else {
      ChainedIsDisjoint(s);
    }
  }

  /** The last tier starting at or below the score, or the first tier when none does. */
  function ChosenTier(ordered: seq<Tier>, score: real): (k: nat)
    requires ordered != []
    ensures k < |ordered|
    ensures forall i :: k < i < |ordered| ==> score < ordered[i].from
    ensures ordered[k].from <= score || k == 0
  {
    var n := |ordered|;
    if n == 1 || ordered[n - 1].from <= score then n - 1
    else
      var k := ChosenTier(ordered[..n - 1], score);
      assert ordered[..n - 1][k] == ordered[k];
      k
  }

  method PickTier(ordered: seq<Tier>, score: real) returns (chosen: Tier)
    requires ordered != []
    ensures chosen == ordered[ChosenTier(ordered, score)]
  {
    chosen := ordered[0];
    ghost var k := 0;
    for i := 0 to |ordered|
      invariant k < |ordered| && chosen == ordered[k]
      invariant forall j :: k < j < i ==> score < ordered[j].from
      invariant k == 0 || (ordered[k].from <= score && k < i)
    {
      if ordered[i].from <= score {
        chosen := ordered[i];
        k := i;
      }
    }
    var best := ChosenTier(ordered, score);
    assert k == best;
  }

  /** On a validated list the loop finds the bracket that contains the score, and only one does. */
  lemma PicksTheContainingBracket(s: seq<Tier>, score: real, i: nat)
    requires Chained(s) && i < |s| && s[i].from <= score < s[i].to
    ensures ChosenTier(s, score) == i
    ensures forall j :: 0 <= j < |s| && s[j].from <= score < s[j].to ==> j == i
  {
    forall j | 0 <= j < |s| && j != i ensures !(s[j].from <= score < s[j].to) && (j > i ==> score < s[j].from) {
      if j < i { ChainedEndsBefore(s, j, i); } else { ChainedEndsBefore(s, i, j); }
    }
  }

  // ---- The reward -----------------------------------------------------------------------------

  function Effective(score: real, t: Template): real {
    if score < t.threshold then 0.0
    else if t.cap.Some? && score > t.cap.value then t.cap.value
    else score
  }

  predicate IsPenalty(t: Template) { t.rewardType == PenaltyPercent }

  /** Cents of base salary per percent of score. */
  function SalaryRate(t: Template, base: nat): real {
    base as real * t.amount / 10000.0
  }

  /** Cents per percent of score: the target times the amount of a unit, a hundredth of it per percent. */
  function UnitRate(t: Template): real {
    t.amount * t.target
  }

  /** Cents; `base` is the base salary in cents. */
  function Reward(t: Template, score: real, base: nat): int {
    var eff := Effective(score, t);
    match t.rewardType
    case Fixed => if eff >= 100.0 then HalfEven(100.0 * t.amount) else 0
    case PercentOfSalary => if eff <= 0.0 then 0 else Times(SalaryRate(t, base), eff)
    case PerUnit => Times(UnitRate(t), eff)
    case Tiered =>
      if t.tiers == [] then 0
      else
        var ordered := SortTiers(t.tiers);
        Times(100.0 * t.amount, ordered[ChosenTier(ordered, eff)].multiplier)
    case PenaltyPercent => if eff >= 100.0 then 0 else Times(SalaryRate(t, base), 100.0 - eff)
  }

  /** On a stored list the validator accepts, sorted again, the bracket holding the score is the one paid. */
  lemma TieredPaysTheBracket(t: Template, score: real, base: nat, tier: Tier)
    requires t.rewardType == Tiered && Disjoint(multiset(t.tiers))
    requires tier in t.tiers && tier.from <= Effective(score, t) < tier.to
    ensures Reward(t, score, base) == Times(100.0 * t.amount, tier.multiplier)
  {
    hide Disjoint, SortTiers, ChosenTier, Times;
    var ordered := SortTiers(t.tiers);
    ChainedIffDisjoint(ordered);
    assert tier in multiset(ordered);
    var i :| 0 <= i < |ordered| && ordered[i] == tier;
    PicksTheContainingBracket(ordered, Effective(score, t), i);
  }

  // ---- The service multiplies before it divides; the exact amounts are the same --------------

  lemma SameCents(x: real, y: real)
    requires x == y
    ensures HalfEven(x) == HalfEven(y)
  {
  }

  lemma Regroup(x: real, y: real)
    ensures x * y / 10000.0 == x / 10000.0 * y
    ensures x * (y / 100.0) / 100.0 == x / 10000.0 * y
  {
  }

  lemma PercentForm(t: Template, base: nat, eff: real)
    ensures HalfEven(base as real * t.amount * eff / 10000.0) == Times(SalaryRate(t, base), eff)
  {
    Regroup(base as real * t.amount, eff);
    SameCents(base as real * t.amount * eff / 10000.0, SalaryRate(t, base) * eff);
  }

  lemma UnitForm(t: Template, eff: real, actual: real)
    requires actual == t.target * eff / 100.0
    ensures HalfEven(100.0 * (t.amount * actual)) == Times(UnitRate(t), eff)
  {
    assert 100.0 * (t.amount * (t.target * eff / 100.0)) == t.amount * t.target * eff;
    SameCents(100.0 * (t.amount * actual), UnitRate(t) * eff);
  }

  lemma PenaltyForm(t: Template, base: nat, eff: real, shortfall: real)
    requires shortfall == (100.0 - eff) / 100.0
    ensures HalfEven(base as real * t.amount * shortfall / 100.0) == Times(SalaryRate(t, base), 100.0 - eff)
  {
    Regroup(base as real * t.amount, 100.0 - eff);
    SameCents(base as real * t.amount * shortfall / 100.0, SalaryRate(t, base) * (100.0 - eff));
  }

  /** Cents and whether they are a penalty, computed in the order of the service. */
  method ComputeReward(t: Template, score: real, base: nat) returns (cents: int, isPenalty: bool)
    ensures cents == Reward(t, score, base) && isPenalty == IsPenalty(t)
    ensures WithinSchema(t) ==> 0 <= cents
    ensures t.rewardType == Tiered && Disjoint(multiset(t.tiers)) ==>
              forall tier :: tier in t.tiers && tier.from <= Effective(score, t) < tier.to ==>
                cents == Times(100.0 * t.amount, tier.multiplier)
  {
    hide WithinSchema, Disjoint, SortTiers, ChosenTier, HalfEven, SalaryRate, UnitRate;
    var effective := Effective(score, t);
    isPenalty := false;
    match t.rewardType {
      case Fixed =>
        cents := if effective >= 100.0 then HalfEven(100.0 * t.amount) else 0;
      case PercentOfSalary =>
        if effective <= 0.0 {
          cents := 0;
        } else {
          PercentForm(t, base, effective);
          cents := HalfEven(base as real * t.amount * effective / 10000.0);
        }
      case PerUnit =>
        var actual := t.target * effective / 100.0;
        UnitForm(t, effective, actual);
        cents := HalfEven(100.0 * (t.amount * actual));
      case Tiered =>
        if t.tiers == [] {
          cents := 0;
        } else {
          var ordered := SortTiers(t.tiers);
          var chosen := PickTier(ordered, effective);
          cents := Times(100.0 * t.amount, chosen.multiplier);
        }
      case PenaltyPercent =>
        isPenalty := true;
        if effective >= 100.0 {
          cents := 0;
        } else {
          var shortfall := (100.0 - effective) / 100.0;
          PenaltyForm(t, base, effective, shortfall);
          cents := HalfEven(base as real * t.amount * shortfall / 100.0);
        }
    }
    RewardMeans(t, score, base);
  }

  lemma RewardMeans(t: Template, score: real, base: nat)
    ensures WithinSchema(t) ==> 0 <= Reward(t, score, base)
    ensures t.rewardType == Tiered && Disjoint(multiset(t.tiers)) ==>
              forall tier :: tier in t.tiers && tier.from <= Effective(score, t) < tier.to ==>
                Reward(t, score, base) == Times(100.0 * t.amount, tier.multiplier)
  {
    hide WithinSchema, Disjoint, Reward;
    if WithinSchema(t) {
      RewardNonNegative(t, score, base);
    }
    if t.rewardType == Tiered && Disjoint(multiset(t.tiers)) {
      forall tier | tier in t.tiers && tier.from <= Effective(score, t) < tier.to
        ensures Reward(t, score, base) == Times(100.0 * t.amount, tier.multiplier)
      {
        TieredPaysTheBracket(t, score, base, tier);
      }
    }
  }

  lemma EffectiveMonotone(t: Template, less: real, more: real)
    requires WithinSchema(t) && less <= more
    ensures 0.0 <= Effective(less, t) <= Effective(more, t)
  {
  }

  lemma ChosenTierMonotone(ordered: seq<Tier>, less: real, more: real)
    requires ordered != [] && Ordered(ordered) && less <= more
    ensures ChosenTier(ordered, less) <= ChosenTier(ordered, more)
  {
  }

  ghost predicate MultipliersRise(tiers: seq<Tier>) {
    forall i, j :: 0 <= i < j < |SortTiers(tiers)| ==> SortTiers(tiers)[i].multiplier <= SortTiers(tiers)[j].multiplier
  }

  lemma NonNegativeRates(t: Template, base: nat)
    requires WithinSchema(t)
    ensures 0.0 <= SalaryRate(t, base) && 0.0 <= UnitRate(t) && 0.0 <= 100.0 * t.amount
  {
  }

  lemma TierMultiplierNonNegative(t: Template, k: nat)
    requires WithinSchema(t) && k < |t.tiers|
    ensures 0.0 <= SortTiers(t.tiers)[k].multiplier
  {
    assert SortTiers(t.tiers)[k] in multiset(SortTiers(t.tiers));
    assert SortTiers(t.tiers)[k] in t.tiers;
  }

  /** No score, however low or high, produces a negative amount. */
  lemma RewardNonNegative(t: Template, score: real, base: nat)
    requires WithinSchema(t)
    ensures 0 <= Reward(t, score, base)
  {
    hide Times, SortTiers, ChosenTier, HalfEven, SalaryRate, UnitRate;
    var eff := Effective(score, t);
    EffectiveMonotone(t, score, score);
    NonNegativeRates(t, base);
    match t.rewardType
    case Fixed => HalfEvenOfCents(0.0, 0); HalfEvenMonotone(0.0, 100.0 * t.amount);
    case PercentOfSalary => TimesMonotone(SalaryRate(t, base), eff, eff);
    case PerUnit => TimesMonotone(UnitRate(t), eff, eff);
    case Tiered =>
      if t.tiers != [] {
        var ordered := SortTiers(t.tiers);
        var k := ChosenTier(ordered, eff);
        TierMultiplierNonNegative(t, k);
        TimesMonotone(100.0 * t.amount, ordered[k].multiplier, ordered[k].multiplier);
      }
    case PenaltyPercent =>
      if eff < 100.0 { TimesMonotone(SalaryRate(t, base), 100.0 - eff, 100.0 - eff); }
  }

  /** A better score never pays less; for a penalty it never costs more. */
  lemma RewardFollowsScore(t: Template, less: real, more: real, base: nat)
    requires WithinSchema(t) && less <= more
    requires t.rewardType == Tiered ==> MultipliersRise(t.tiers)
    ensures !IsPenalty(t) ==> Reward(t, less, base) <= Reward(t, more, base)
    ensures IsPenalty(t) ==> Reward(t, more, base) <= Reward(t, less, base)
  {
    hide Times, SortTiers, ChosenTier, HalfEven, SalaryRate, UnitRate;
    RewardNonNegative(t, less, base);
    RewardNonNegative(t, more, base);
    EffectiveMonotone(t, less, more);
    NonNegativeRates(t, base);
    var a, b := Effective(less, t), Effective(more, t);
    match t.rewardType
    case Fixed =>
    case PercentOfSalary => TimesMonotone(SalaryRate(t, base), a, b);
    case PerUnit => TimesMonotone(UnitRate(t), a, b);
    case Tiered =>
      if t.tiers != [] {
        var ordered := SortTiers(t.tiers);
        ChosenTierMonotone(ordered, a, b);
        var i, j := ChosenTier(ordered, a), ChosenTier(ordered, b);
        TierMultiplierNonNegative(t, i);
        TimesMonotone(100.0 * t.amount, ordered[i].multiplier, ordered[j].multiplier);
      }
    case PenaltyPercent =>
      if b < 100.0 { TimesMonotone(SalaryRate(t, base), 100.0 - b, 100.0 - a); }
  }

  /** A FIXED reward is due at 100 percent, not at the threshold; a cap below 100 makes it unreachable. */
  lemma FixedNeedsFullScore(t: Template, score: real, base: nat)
    requires t.rewardType == Fixed && t.threshold <= score && HalfEven(100.0 * t.amount) != 0
    ensures Reward(t, score, base) == HalfEven(100.0 * t.amount)
            <==> 100.0 <= score && (t.cap.Some? && t.cap.value < score ==> 100.0 <= t.cap.value)
  {
  }

  /** A failing input: threshold 80, score 90, a reward of 1.00 that is not paid. */
  lemma FixedAboveThresholdPaysNothing()
    ensures var t := Template(80.0, None, Fixed, 1.0, 100.0, []);
            Reward(t, 90.0, 0) == 0 && Reward(t, 100.0, 0) == 100
  {
    HalfEvenOfCents(100.0, 100);
  }

  lemma NothingTimes(rate: real)
    ensures Times(rate, 0.0) == 0
  {
    HalfEvenOfCents(rate * 0.0, 0);
  }

  /**
   * What a score below the threshold pays: nothing, except that TIERED still pays the tier of 0 and
   * a penalty is charged in full.
   */
  lemma BelowThreshold(t: Template, score: real, base: nat)
    requires WithinSchema(t) && score < t.threshold
    ensures t.rewardType in {Fixed, PercentOfSalary, PerUnit} ==> Reward(t, score, base) == 0
    ensures t.rewardType == Tiered && t.tiers != [] ==>
              var ordered := SortTiers(t.tiers);
              Reward(t, score, base) == Times(100.0 * t.amount, ordered[ChosenTier(ordered, 0.0)].multiplier)
    ensures t.rewardType == PenaltyPercent ==>
              forall s :: Reward(t, s, base) <= Reward(t, score, base)
  {
    NothingTimes(UnitRate(t));
    hide Times, SortTiers, ChosenTier, SalaryRate, UnitRate;
    assert Effective(score, t) == 0.0;
    if t.rewardType == PenaltyPercent {
      FullPenaltyIsWorst(t, score, base);
    }
  }

  lemma FullPenaltyIsWorst(t: Template, score: real, base: nat)
    requires WithinSchema(t) && score < t.threshold && t.rewardType == PenaltyPercent
    ensures forall s :: Reward(t, s, base) <= Reward(t, score, base)
  {
    hide Times, SalaryRate;
    forall s ensures Reward(t, s, base) <= Reward(t, score, base) {
      if s < t.threshold {
        assert Effective(s, t) == Effective(score, t);
      } else {
        RewardFollowsScore(t, score, s, base);
      }
    }
  }

  // ---- What each type pays --------------------------------------------------------------------

  /** A fixed amount, units and tiers have nothing to do with the salary. */
  lemma SalaryIrrelevant(t: Template, score: real, base: nat, other: nat)
    requires t.rewardType in {Fixed, PerUnit, Tiered}
    ensures Reward(t, score, base) == Reward(t, score, other)
  {
  }

  lemma WithinHalfACent(rate: real, quantity: real)
    ensures -1.0 <= 2.0 * (rate * quantity - Times(rate, quantity) as real) <= 1.0
  {
  }

  /** FIXED pays the amount, to the cent. */
  lemma FixedPaysTheAmount(t: Template, score: real, base: nat, cents: nat)
    requires t.rewardType == Fixed && t.amount == cents as real / 100.0 && Effective(score, t) >= 100.0
    ensures Reward(t, score, base) == cents
  {
    HalfEvenOfCents(100.0 * t.amount, cents);
  }

  /** PER_UNIT at a full score pays every unit of the target its price, to the cent. */
  lemma PerUnitPaysTheUnits(t: Template, score: real, base: nat, units: nat, cents: nat)
    requires t.rewardType == PerUnit && t.target == units as real && t.amount == cents as real / 100.0
    requires Effective(score, t) == 100.0
    ensures Reward(t, score, base) == units * cents
  {
    assert (units * cents) as real == units as real * cents as real;
    assert UnitRate(t) * 100.0 == (units * cents) as real;
    HalfEvenOfCents(UnitRate(t) * 100.0, units * cents);
    hide HalfEven, UnitRate;
  }

  /** PERCENT_OF_SALARY at a full score, and a full penalty, are the stated percentage of the salary. */
  lemma PercentageOfTheSalary(t: Template, score: real, base: nat)
    requires t.rewardType == PercentOfSalary ==> Effective(score, t) == 100.0
    requires t.rewardType == PenaltyPercent ==> Effective(score, t) == 0.0
    requires t.rewardType in {PercentOfSalary, PenaltyPercent}
    ensures -1.0 <= 2.0 * (Reward(t, score, base) as real - base as real * t.amount / 100.0) <= 1.0
  {
    WithinHalfACent(SalaryRate(t, base), 100.0);
    assert SalaryRate(t, base) * 100.0 == base as real * t.amount / 100.0;
    hide Times, SalaryRate;
  }

  /** TIERED pays the amount times the multiplier of the bracket that holds the score. */
  lemma TieredPaysTheMultiple(t: Template, score: real, base: nat, tier: Tier, cents: nat)
    requires t.rewardType == Tiered && Disjoint(multiset(t.tiers)) && t.amount == cents as real / 100.0
    requires tier in t.tiers && tier.from <= Effective(score, t) < tier.to
    ensures -1.0 <= 2.0 * (Reward(t, score, base) as real - cents as real * tier.multiplier) <= 1.0
  {
    hide Reward, Disjoint, Times;
    TieredPaysTheBracket(t, score, base, tier);
    assert 100.0 * t.amount == cents as real;
    WithinHalfACent(cents as real, tier.multiplier);
  }

  lemma Stretch(x: real, off: real)
    requires 0.0 <= x && -1.0 <= off <= 1.0
    ensures -x <= Product(x, off) <= x
  {
    ProductMonotone(x, -1.0, off);
    ProductMonotone(x, off, 1.0);
  }

  lemma Spread(x: real, rate: real, full: real)
    ensures Product(x, 2.0 * (100.0 * rate - full)) == 200.0 * Product(rate, x) - 2.0 * Product(x, full)
  {
  }

  lemma RateLaws(rate: real, x: real)
    ensures -1.0 <= 2.0 * (Product(rate, x) - Times(rate, x) as real) <= 1.0
    ensures -1.0 <= 2.0 * (100.0 * rate - Times(rate, 100.0) as real) <= 1.0
  {
    WithinHalfACent(rate, x);
    WithinHalfACent(rate, 100.0);
    hide Times;
  }

  lemma InProportion(rate: real, x: real, part: int, full: int)
    requires 0.0 <= x && part == Times(rate, x) && full == Times(rate, 100.0)
    ensures -(100.0 + x) <= 2.0 * (100.0 * part as real - Product(x, full as real)) <= 100.0 + x
  {
    hide Times, Product;
    RateLaws(rate, x);
    Stretch(x, 2.0 * (100.0 * rate - full as real));
    Spread(x, rate, full as real);
  }

  /**
   * PERCENT_OF_SALARY and PER_UNIT grow in proportion to the effective score, a penalty in proportion to
   * what is missing to 100: each amount is that share of the full one, up to the rounding of both.
   */
  lemma ProportionalToScore(t: Template, score: real, full: real, base: nat)
    requires 0.0 <= Effective(score, t) && t.rewardType in {PercentOfSalary, PerUnit, PenaltyPercent}
    requires Effective(full, t) == if IsPenalty(t) then 0.0 else 100.0
    requires IsPenalty(t) ==> Effective(score, t) <= 100.0
    ensures var e := Effective(score, t);
            var share := if IsPenalty(t) then 100.0 - e else e;
            -(100.0 + share) <= 2.0 * (100.0 * Reward(t, score, base) as real - Product(share, Reward(t, full, base) as real)) <= 100.0 + share
  {
    var e := Effective(score, t);
    var share := if IsPenalty(t) then 100.0 - e else e;
    var rate := if t.rewardType == PerUnit then UnitRate(t) else SalaryRate(t, base);
    NothingTimes(rate);
    hide Times, UnitRate, SalaryRate, Product;
    InProportion(rate, share, Times(rate, share), Times(rate, 100.0));
  }

  /** A score above the cap pays as the cap does; one below the threshold pays as no score at all. */
  lemma CapAndThreshold(t: Template, score: real, base: nat)
    ensures t.threshold <= score && t.cap.Some? && t.threshold <= t.cap.value <= score ==>
              Reward(t, score, base) == Reward(t, t.cap.value, base)
    ensures t.threshold <= score && (t.cap.None? || score <= t.cap.value) ==> Effective(score, t) == score
    ensures score < t.threshold && 0.0 < t.threshold ==> Reward(t, score, base) == Reward(t, 0.0, base) && Effective(score, t) == 0.0
  {
    hide Times, SortTiers, ChosenTier, HalfEven, SalaryRate, UnitRate;
  }

  /** The tier starts at or below the score, or is the lowest, and no tier that starts there starts later. */
  ghost predicate LastReached(tiers: seq<Tier>, score: real, tier: Tier) {
    && tier in tiers
    && (tier.from <= score || forall other :: other in tiers ==> tier.from <= other.from)
    && (forall other :: other in tiers && other.from <= score ==> other.from <= tier.from)
  }

  /**
   * Whatever the list and the score, TIERED pays the multiplier of the last tier that starts at or below
   * the effective score, the lowest tier when none does, and nothing without tiers.
   */
  lemma TieredPaysTheLastReached(t: Template, score: real, base: nat)
    requires t.rewardType == Tiered
    ensures t.tiers == [] ==> Reward(t, score, base) == 0
    ensures t.tiers != [] ==>
              exists tier :: LastReached(t.tiers, Effective(score, t), tier) && Reward(t, score, base) == Times(100.0 * t.amount, tier.multiplier)
  {
    if t.tiers != [] {
      var ordered, eff := SortTiers(t.tiers), Effective(score, t);
      var k := ChosenTier(ordered, eff);
      TieredIs(t, score, base);
      ChosenIsLastReached(t.tiers, eff, ordered, k);
      hide SortTiers, ChosenTier, Times, LastReached, Effective, Reward, HalfEven;
    }
  }

  lemma TieredIs(t: Template, score: real, base: nat)
    requires t.rewardType == Tiered && t.tiers != []
    ensures var ordered := SortTiers(t.tiers);
            Reward(t, score, base) == Times(100.0 * t.amount, ordered[ChosenTier(ordered, Effective(score, t))].multiplier)
  {
    hide SortTiers, ChosenTier, Times, HalfEven;
  }

  lemma ChosenIsLastReached(tiers: seq<Tier>, score: real, ordered: seq<Tier>, k: nat)
    requires Ordered(ordered) && multiset(ordered) == multiset(tiers) && k < |ordered|
    requires forall i :: k < i < |ordered| ==> score < ordered[i].from
    requires ordered[k].from <= score || k == 0
    ensures LastReached(tiers, score, ordered[k])
  {
    assert ordered[k] in multiset(ordered);
    forall other | other in tiers
      ensures (k == 0 ==> ordered[0].from <= other.from) && (other.from <= score ==> other.from <= ordered[k].from)
    {
      assert other in multiset(ordered);
      var i :| 0 <= i < |ordered| && ordered[i] == other;
    }
  }
}
