/** What points cost: blended purchase rates, and yearly dues projected past the stored years. */
module Cost {
  import opened Types
  import opened Sorting
  import opened Money

  const DUES_GROWTH_BASE := 1_000_000

  datatype DuesRate = DuesRate(useYear: int, rate: int)

  datatype CostBasis = CostBasis(
    rates: map<int, int>, blended: int, hasRate: bool,
    dues: map<int, int>, firstYear: int, lastYear: int, growthMicros: int, hasDues: bool,
    useYearMonth: int)

  // ----- Purchase rates

  /** None when the contract has no usable cost data. */
  function PricePerPointYear(c: Contract): Option<int> {
    if c.termYears <= 0 || c.purchasePrice <= 0 || c.closingCosts < 0 || c.annualPoints <= 0 then None
    else Some(Rounded((c.purchasePrice + c.closingCosts) * MICROS_PER_CENT, Years(c.annualPoints, c.termYears)))
  }

  function Years(points: int, term: int): (n: int)
    requires points > 0 && term > 0
    ensures n > 0
  {
    points * term
  }

  /** A contract is priced exactly when it says what was paid for how many points and years; closing costs may
      be nothing. Paid for every point in every year of the term, the rate comes to what the contract cost, up
      to half a millionth of a dollar for each of those points. */
  lemma PriceSpreadsCost(c: Contract)
    ensures PricePerPointYear(c).Some? <==>
              c.purchasePrice >= 1 && c.closingCosts >= 0 && c.annualPoints >= 1 && c.termYears >= 1
    ensures PricePerPointYear(c).Some? ==>
              var n := c.annualPoints * c.termYears;
              2 * Abs(PricePerPointYear(c).value * n - (c.purchasePrice + c.closingCosts) * 10_000) <= n
  {
    hide Rounded;
    if PricePerPointYear(c).Some? {
      RoundedError((c.purchasePrice + c.closingCosts) * MICROS_PER_CENT, Years(c.annualPoints, c.termYears));
    }
  }

  function RatesOf(contracts: seq<Contract>): map<int, int> {
    if contracts == [] then map[]
    else
      var front, c := RatesOf(contracts[..|contracts| - 1]), contracts[|contracts| - 1];
      var rate := PricePerPointYear(c);
      if rate.Some? then front[c.id := rate.value] else front
  }

  lemma LastIsNew(contracts: seq<Contract>)
    requires contracts != []
    requires forall i, j :: 0 <= i < j < |contracts| ==> contracts[i].id != contracts[j].id
    ensures forall c :: c in contracts[..|contracts| - 1] ==> c.id != contracts[|contracts| - 1].id
  {
    var front := contracts[..|contracts| - 1];
    forall c | c in front ensures c.id != contracts[|contracts| - 1].id {
      var i :| 0 <= i < |front| && front[i] == c;
      assert contracts[i] == c;
    }
  }

  /** The rates are those of the priced contracts. */
  lemma {:induction false} RatesExact(contracts: seq<Contract>)
    requires forall i, j :: 0 <= i < j < |contracts| ==> contracts[i].id != contracts[j].id
    ensures forall id :: id in RatesOf(contracts) ==> exists c :: c in contracts && c.id == id
    ensures forall c :: c in contracts ==>
              if c.id in RatesOf(contracts) then PricePerPointYear(c) == Some(RatesOf(contracts)[c.id])
              else PricePerPointYear(c).None?
  {
    hide PricePerPointYear;
    if contracts != [] {
      var front, last := contracts[..|contracts| - 1], contracts[|contracts| - 1];
      LastIsNew(contracts);
      RatesExact(front);
      assert contracts == front + [last];
      assert last.id !in RatesOf(front);
    }
  }

  function Weight(contracts: seq<Contract>): int {
    if contracts == [] then 0
    else
      var c := contracts[|contracts| - 1];
      Weight(contracts[..|contracts| - 1]) + if PricePerPointYear(c).Some? then c.annualPoints else 0
  }

  function WeightedRates(contracts: seq<Contract>): int {
    if contracts == [] then 0
    else
      var c := contracts[|contracts| - 1];
      var rate := PricePerPointYear(c);
      WeightedRates(contracts[..|contracts| - 1]) + if rate.Some? then c.annualPoints * rate.value else 0
  }

  ghost predicate PricedWithin(contracts: seq<Contract>, lo: int, hi: int) {
    forall c :: c in contracts && PricePerPointYear(c).Some? ==> lo <= PricePerPointYear(c).value <= hi
  }

  lemma TimesInOrder(w: int, a: int, b: int)
    requires w >= 0 && a <= b
    ensures w * a <= w * b
  {
  }

  lemma WeightedStep(lo: int, hi: int, weight: int, sum: int, w: int, rate: int)
    requires lo * weight <= sum <= hi * weight && w >= 0 && lo <= rate <= hi
    ensures lo * (weight + w) <= sum + w * rate <= hi * (weight + w)
  {
    TimesInOrder(w, lo, rate);
    TimesInOrder(w, rate, hi);
    assert lo * (weight + w) == lo * weight + w * lo && hi * (weight + w) == hi * weight + w * hi;
  }

  lemma {:induction false} WeightedWithin(contracts: seq<Contract>, lo: int, hi: int)
    requires PricedWithin(contracts, lo, hi)
    ensures lo * Weight(contracts) <= WeightedRates(contracts) <= hi * Weight(contracts)
    ensures Weight(contracts) >= 0
    ensures Weight(contracts) > 0 <==> exists c :: c in contracts && PricePerPointYear(c).Some?
  {
    if contracts != [] {
      var front, c := contracts[..|contracts| - 1], contracts[|contracts| - 1];
      assert contracts == front + [c];
      WeightedWithin(front, lo, hi);
      var rate := PricePerPointYear(c);
      if rate.Some? {
        assert c in contracts;
        WeightedStep(lo, hi, Weight(front), WeightedRates(front), c.annualPoints, rate.value);
      }
    }
  }

  function PricedPoints(c: Contract): int {
    if PricePerPointYear(c).Some? then c.annualPoints else 0
  }

  /** What the contract's points cost in a year, at its own rate. */
  function PricedCost(c: Contract): int {
    if PricePerPointYear(c).Some? then PricePerPointYear(c).value * c.annualPoints else 0
  }

  lemma {:induction false} WeightsSum(contracts: seq<Contract>)
    ensures Weight(contracts)
            == SumOf(seq(|contracts|, i requires 0 <= i < |contracts| => PricedPoints(contracts[i])))
    ensures WeightedRates(contracts)
            == SumOf(seq(|contracts|, i requires 0 <= i < |contracts| => PricedCost(contracts[i])))
  {
    if contracts != [] {
      var front := contracts[..|contracts| - 1];
      WeightsSum(front);
      var points := seq(|contracts|, i requires 0 <= i < |contracts| => PricedPoints(contracts[i]));
      var costs := seq(|contracts|, i requires 0 <= i < |contracts| => PricedCost(contracts[i]));
      assert points[..|front|] == seq(|front|, i requires 0 <= i < |front| => PricedPoints(front[i]));
      assert costs[..|front|] == seq(|front|, i requires 0 <= i < |front| => PricedCost(front[i]));
    }
  }

  // ----- Dues growth

  function RateOf(dues: map<int, int>, year: int): int {
    if year in dues then dues[year] else 0
  }

  /** The last positive rate of each year; the others count as absent. */
  function StoredDues(dues: seq<DuesRate>): map<int, int> {
    if dues == [] then map[]
    else
      var front, d := StoredDues(dues[..|dues| - 1]), dues[|dues| - 1];
      if d.rate <= 0 then front else front[d.useYear := d.rate]
  }

  /** dues[i] is the last positive rate of its year. */
  ghost predicate LastPositive(dues: seq<DuesRate>, i: int) {
    0 <= i < |dues| && dues[i].rate > 0
    && forall j :: i < j < |dues| && dues[j].useYear == dues[i].useYear ==> dues[j].rate <= 0
  }

  lemma LastPositiveNext(front: seq<DuesRate>, d: DuesRate)
    ensures LastPositive(front + [d], |front|) <==> d.rate > 0
    ensures forall i :: 0 <= i < |front| ==>
              (LastPositive(front + [d], i) <==>
               LastPositive(front, i) && !(d.rate > 0 && d.useYear == front[i].useYear))
  {
    var dues := front + [d];
    forall i | 0 <= i < |front|
      ensures LastPositive(dues, i) <==> LastPositive(front, i) && !(d.rate > 0 && d.useYear == front[i].useYear)
    {
      assert dues[|front|] == d && forall j :: 0 <= j < |front| ==> dues[j] == front[j];
    }
  }

  /** A year is stored exactly when some rate of it is positive, with the last such rate. */
  lemma {:induction false} StoredDuesExact(dues: seq<DuesRate>)
    ensures forall y :: y in StoredDues(dues) ==>
              exists i :: LastPositive(dues, i) && dues[i] == DuesRate(y, StoredDues(dues)[y])
    ensures forall i :: LastPositive(dues, i) ==>
              dues[i].useYear in StoredDues(dues) && StoredDues(dues)[dues[i].useYear] == dues[i].rate
    ensures forall d :: d in dues && d.rate > 0 ==> d.useYear in StoredDues(dues)
  {
    if dues != [] {
      var front, d := dues[..|dues| - 1], dues[|dues| - 1];
      assert dues == front + [d];
      StoredDuesExact(front);
      LastPositiveNext(front, d);
      forall y | y in StoredDues(dues)
        ensures exists i :: LastPositive(dues, i) && dues[i] == DuesRate(y, StoredDues(dues)[y])
      {
        StoredYearFrom(dues, y);
      }
    }
  }

  lemma StoredYearFrom(dues: seq<DuesRate>, y: int)
    requires dues != [] && y in StoredDues(dues)
    requires var front := dues[..|dues| - 1];
             forall z :: z in StoredDues(front) ==>
               exists i :: LastPositive(front, i) && front[i] == DuesRate(z, StoredDues(front)[z])
    ensures exists i :: LastPositive(dues, i) && dues[i] == DuesRate(y, StoredDues(dues)[y])
  {
    var front, d := dues[..|dues| - 1], dues[|dues| - 1];
    assert dues == front + [d];
    LastPositiveNext(front, d);
    if d.rate > 0 && d.useYear == y {
      assert LastPositive(dues, |front|);
    } else {
      assert y in StoredDues(front);
      var i :| LastPositive(front, i) && front[i] == DuesRate(y, StoredDues(front)[y]);
      assert LastPositive(dues, i);
    }
  }

  ghost predicate Positive(dues: map<int, int>) {
    forall y :: y in dues ==> dues[y] > 0
  }

  lemma {:induction false} StoredDuesPositive(dues: seq<DuesRate>)
    ensures Positive(StoredDues(dues))
  {
    if dues != [] {
      StoredDuesPositive(dues[..|dues| - 1]);
    }
  }

  ghost predicate Spans(dues: map<int, int>, first: int, last: int) {
    first in dues && last in dues && forall y :: y in dues ==> first <= y <= last
  }

  predicate Adjacent(dues: map<int, int>, year: int) {
    year in dues && year + 1 in dues
  }

  /** The growth from year to the next, in millionths. */
  function Ratio(dues: map<int, int>, year: int): int
    requires Adjacent(dues, year)
  {
    if dues[year] == 0 then 0 else Rounded(dues[year + 1] * DUES_GROWTH_BASE, dues[year])
  }

  function PairCount(dues: map<int, int>, first: int, last: int): nat
    decreases last - first
  {
    if last <= first then 0
    else PairCount(dues, first, last - 1) + if Adjacent(dues, last - 1) then 1 else 0
  }

  function SumOfRatios(dues: map<int, int>, first: int, last: int): int
    decreases last - first
  {
    if last <= first then 0
    else SumOfRatios(dues, first, last - 1) + if Adjacent(dues, last - 1) then Ratio(dues, last - 1) else 0
  }

  /** The mean growth over every two stored years that are one apart; flat when there are none. */
  function Growth(dues: map<int, int>, first: int, last: int): int {
    var n := PairCount(dues, first, last);
    if n == 0 then DUES_GROWTH_BASE else Rounded(SumOfRatios(dues, first, last), n)
  }

  /** Between two stored years with none in between there is a pair only if they are one apart. */
  lemma {:induction false} AcrossGap(dues: map<int, int>, first: int, y: int, next: int)
    requires first <= y < next
    requires forall z :: y < z < next ==> z !in dues
    requires y in dues && next in dues
    ensures PairCount(dues, first, next) == PairCount(dues, first, y) + if next - y == 1 then 1 else 0
    ensures SumOfRatios(dues, first, next)
            == SumOfRatios(dues, first, y) + if next - y == 1 then Ratio(dues, y) else 0
  {
    if next - y > 1 {
      NoPairs(dues, first, y, next);
    }
  }

  lemma {:induction false} NoPairs(dues: map<int, int>, first: int, y: int, next: int)
    requires first <= y < next
    requires forall z :: y <= z < next ==> !Adjacent(dues, z)
    ensures PairCount(dues, first, next) == PairCount(dues, first, y)
    ensures SumOfRatios(dues, first, next) == SumOfRatios(dues, first, y)
    decreases next - y
  {
    if next - 1 > y {
      NoPairs(dues, first, y, next - 1);
    }
  }

  lemma NonEmpty(s: set<int>)
    ensures s == {} || exists y :: y in s
  {
    if forall y :: y !in s {
      assert s == {};
    }
  }

  method YearsOf(dues: map<int, int>) returns (years: seq<int>)
    ensures forall y :: y in years <==> y in dues
    ensures forall i, j :: 0 <= i < j < |years| ==> years[i] < years[j]
  {
    var found: seq<int> := [];
    var rest: set<int> := dues.Keys;
    while rest != {}
      invariant rest <= dues.Keys
      invariant forall y :: y in found <==> y in dues.Keys - rest
      invariant forall i, j :: 0 <= i < j < |found| ==> found[i] != found[j]
      decreases |rest|
    {
      NonEmpty(rest);
      var y: int :| y in rest;
      found := found + [y];
      rest := rest - {y};
    }
    var key: int -> (int, int) := y => (y, 0);
    years := SortSlice(key, found);
    PermutationIsStrict(key, found, years);
    forall y ensures y in years <==> y in found {
      assert y in multiset(years) <==> y in multiset(found);
    }
    forall i, j | 0 <= i < j < |years| ensures years[i] < years[j] {
      assert Less(key(years[i]), key(years[j]));
    }
  }

  method DuesGrowth(dues: map<int, int>) returns (first: int, last: int, growth: int)
    requires dues != map[] && Positive(dues)
    ensures Spans(dues, first, last)
    ensures growth == Growth(dues, first, last)
    ensures forall lo, hi :: RisesWithin(dues, lo, hi) && (exists y :: y in dues && y + 1 in dues) ==>
              lo <= growth <= hi
  {
    hide RisesWithin, Rounded;
    var years := YearsOf(dues);
    assert years != [] by {
      assert dues.Keys != {};
      NonEmpty(dues.Keys);
      var y :| y in dues.Keys;
      assert y in years;
    }
    first, last := years[0], years[|years| - 1];
    var sum, count := 0, 0;
    for i := 0 to |years| - 1
      invariant sum == SumOfRatios(dues, first, years[i])
      invariant count == PairCount(dues, first, years[i])
    {
      var y, next := years[i], years[i + 1];
      assert y in years && next in years;
      forall z | y < z < next ensures z !in dues {
        assert z !in years;
      }
      AcrossGap(dues, first, y, next);
      if next - y == 1 {
        sum := sum + Rounded(dues[next] * DUES_GROWTH_BASE, dues[y]);
        count := count + 1;
      }
    }
    growth := if count == 0 then DUES_GROWTH_BASE else Rounded(sum, count);
    assert first in years && last in years;
    GrowthBounded(dues, first, last);
  }

  ghost predicate RatiosWithin(dues: map<int, int>, lo: int, hi: int) {
    forall y :: Adjacent(dues, y) ==> lo <= Ratio(dues, y) <= hi
  }

  lemma {:induction false} RatiosSumWithin(dues: map<int, int>, first: int, last: int, lo: int, hi: int)
    requires RatiosWithin(dues, lo, hi)
    ensures lo * PairCount(dues, first, last) <= SumOfRatios(dues, first, last) <= hi * PairCount(dues, first, last)
    decreases last - first
  {
    if last > first {
      RatiosSumWithin(dues, first, last - 1, lo, hi);
      var n := PairCount(dues, first, last - 1);
      assert lo * (n + 1) == lo * n + lo && hi * (n + 1) == hi * n + hi;
    }
  }

  /** Growth lies between the least and the greatest growth of one stored year to the next. */
  lemma GrowthWithinRatios(dues: map<int, int>, first: int, last: int, lo: int, hi: int)
    requires RatiosWithin(dues, lo, hi)
    ensures PairCount(dues, first, last) > 0 ==> lo <= Growth(dues, first, last) <= hi
  {
    var n := PairCount(dues, first, last);
    if n > 0 {
      RatiosSumWithin(dues, first, last, lo, hi);
      RoundedBetween(SumOfRatios(dues, first, last), n, lo, hi);
    }
  }

  /** From each stored year to a stored next one the rate grows by between lo and hi millionths. */
  ghost predicate RisesWithin(dues: map<int, int>, lo: int, hi: int) {
    forall y :: y in dues && y + 1 in dues ==> lo * dues[y] <= 1_000_000 * dues[y + 1] <= hi * dues[y]
  }

  lemma RisesAreRatios(dues: map<int, int>, lo: int, hi: int)
    requires Positive(dues) && RisesWithin(dues, lo, hi)
    ensures RatiosWithin(dues, lo, hi)
  {
    hide Rounded;
    forall y | Adjacent(dues, y) ensures lo <= Ratio(dues, y) <= hi {
      RoundedBetween(dues[y + 1] * DUES_GROWTH_BASE, dues[y], lo, hi);
    }
  }

  /** The stored years that are followed by a stored year. */
  function PairYears(dues: map<int, int>): set<int> {
    set y | y in dues && Adjacent(dues, y)
  }

  lemma {:induction false} PairsCounted(dues: map<int, int>, first: int, last: int)
    requires forall y :: y in dues ==> first <= y
    ensures PairCount(dues, first, last) == |set y | y in PairYears(dues) && y < last|
    decreases last - first
  {
    var before := set y | y in PairYears(dues) && y < last;
    if last <= first {
      assert before == {};
    } else {
      PairsCounted(dues, first, last - 1);
      var rest := set y | y in PairYears(dues) && y < last - 1;
      assert before == if Adjacent(dues, last - 1) then rest + {last - 1} else rest;
    }
  }

  lemma AllPairsCounted(dues: map<int, int>, first: int, last: int)
    requires Spans(dues, first, last)
    ensures PairCount(dues, first, last) == |PairYears(dues)|
  {
    PairsCounted(dues, first, last);
    assert (set y | y in PairYears(dues) && y < last) == PairYears(dues);
  }

  /** The sum of the exact growths of the stored years followed by a stored year, in millionths. */
  ghost function ExactGrowths(dues: map<int, int>, first: int, last: int): real
    decreases last - first
  {
    if last <= first then 0.0
    else
      var y := last - 1;
      ExactGrowths(dues, first, y)
      + if y in dues && y + 1 in dues && dues[y] != 0 then 1000000.0 * dues[y + 1] as real / dues[y] as real else 0.0
  }

  lemma GrowthBetween(dues: map<int, int>, first: int, last: int, lo: int, hi: int)
    requires Positive(dues) && Spans(dues, first, last) && RisesWithin(dues, lo, hi)
    ensures (exists y :: y in dues && y + 1 in dues) ==> lo <= Growth(dues, first, last) <= hi
    ensures (forall y :: y in dues ==> y + 1 !in dues) ==> Growth(dues, first, last) == 1_000_000
  {
    hide Rounded;
    RisesAreRatios(dues, lo, hi);
    GrowthWithinRatios(dues, first, last, lo, hi);
    AllPairsCounted(dues, first, last);
    if y :| y in dues && y + 1 in dues {
      assert y in PairYears(dues);
    } else {
      assert PairYears(dues) == {};
    }
  }

  lemma GrowthBounded(dues: map<int, int>, first: int, last: int)
    requires Positive(dues) && Spans(dues, first, last)
    ensures forall lo, hi :: RisesWithin(dues, lo, hi) && (exists y :: y in dues && y + 1 in dues) ==>
              lo <= Growth(dues, first, last) <= hi
  {
    hide RisesWithin, Growth;
    forall lo, hi | RisesWithin(dues, lo, hi) && (exists y :: y in dues && y + 1 in dues)
      ensures lo <= Growth(dues, first, last) <= hi
    {
      GrowthBetween(dues, first, last, lo, hi);
    }
  }

  // ----- The pricing snapshot

  /** b is the snapshot of these contracts and dues. */
  ghost predicate DerivedFrom(b: CostBasis, contracts: seq<Contract>, dues: seq<DuesRate>) {
    && b.rates == RatesOf(contracts)
    && b.hasRate == (Weight(contracts) > 0)
    && b.blended == (if Weight(contracts) > 0 then Rounded(WeightedRates(contracts), Weight(contracts)) else 0)
    && b.dues == StoredDues(dues)
    && b.hasDues == (b.dues != map[])
    && (b.hasDues ==> Spans(b.dues, b.firstYear, b.lastYear)
                      && b.growthMicros == Growth(b.dues, b.firstYear, b.lastYear))
    && b.useYearMonth == UseYearStartMonth(contracts)
  }

  method NewCostBasis(contracts: seq<Contract>, dues: seq<DuesRate>) returns (b: CostBasis)
    ensures DerivedFrom(b, contracts, dues)
  {
    var rates, num, den := map[], 0, 0;
    for i := 0 to |contracts|
      invariant rates == RatesOf(contracts[..i])
      invariant num == WeightedRates(contracts[..i]) && den == Weight(contracts[..i])
    {
      assert contracts[..i + 1][..i] == contracts[..i];
      var c := contracts[i];
      var rate := PricePerPointYear(c);
      if rate.None? { continue; }
      rates := rates[c.id := rate.value];
      num := num + c.annualPoints * rate.value;
      den := den + c.annualPoints;
    }
    assert contracts[..|contracts|] == contracts;
    var blended, hasRate := 0, false;
    if den > 0 {
      blended, hasRate := Rounded(num, den), true;
    }
    var stored: map<int, int> := map[];
    for i := 0 to |dues|
      invariant stored == StoredDues(dues[..i])
    {
      assert dues[..i + 1][..i] == dues[..i];
      if dues[i].rate <= 0 { continue; }
      stored := stored[dues[i].useYear := dues[i].rate];
    }
    assert dues[..|dues|] == dues;
    var first, last, growth := 0, 0, 0;
    if stored != map[] {
      StoredDuesPositive(dues);
      first, last, growth := DuesGrowth(stored);
    }
    b := CostBasis(rates, blended, hasRate, stored, first, last, growth, stored != map[], UseYearStartMonth(contracts));
  }

  /** The blended rate lies between the least and the greatest priced rate, and there is one exactly when
      some contract is priced. */
  lemma BlendedWithinRates(b: CostBasis, contracts: seq<Contract>, dues: seq<DuesRate>, lo: int, hi: int)
    requires DerivedFrom(b, contracts, dues) && PricedWithin(contracts, lo, hi)
    ensures b.hasRate <==> exists c :: c in contracts && PricePerPointYear(c).Some?
    ensures b.hasRate ==> lo <= b.blended <= hi
  {
    WeightedWithin(contracts, lo, hi);
    if b.hasRate {
      RoundedBetween(WeightedRates(contracts), Weight(contracts), lo, hi);
    }
  }

  /** The growth lies between the least and the greatest rise from a stored year to the next. */
  lemma GrowthWithinRises(b: CostBasis, contracts: seq<Contract>, dues: seq<DuesRate>, lo: int, hi: int)
    requires DerivedFrom(b, contracts, dues) && b.hasDues && RisesWithin(b.dues, lo, hi)
    ensures (exists y :: y in b.dues && y + 1 in b.dues) ==> lo <= b.growthMicros <= hi
    ensures (forall y :: y in b.dues ==> y + 1 !in b.dues) ==> b.growthMicros == 1_000_000
  {
    hide Growth, RisesWithin;
    StoredDuesPositive(dues);
    GrowthBetween(b.dues, b.firstYear, b.lastYear, lo, hi);
  }

  lemma {:induction false} RatiosNearExact(dues: map<int, int>, first: int, last: int)
    requires Positive(dues)
    ensures AbsReal(SumOfRatios(dues, first, last) as real - ExactGrowths(dues, first, last))
            <= 0.5 * PairCount(dues, first, last) as real
    decreases last - first
  {
    hide Rounded;
    if last > first {
      RatiosNearExact(dues, first, last - 1);
      if Adjacent(dues, last - 1) {
        RatioNearExact(dues[last], dues[last - 1]);
      }
    }
  }

  lemma RatioNearExact(next: int, rate: int)
    requires rate > 0
    ensures AbsReal(Rounded(next * DUES_GROWTH_BASE, rate) as real - 1000000.0 * next as real / rate as real) <= 0.5
  {
    hide Rounded;
    RoundedError(next * DUES_GROWTH_BASE, rate);
    NearQuotient(Rounded(next * DUES_GROWTH_BASE, rate), next * DUES_GROWTH_BASE, rate,
                 1000000.0 * next as real / rate as real);
  }

  /** The growth is within a millionth of the exact mean of the rises from a stored year to the next. */
  lemma GrowthNearMean(b: CostBasis, contracts: seq<Contract>, dues: seq<DuesRate>)
    requires DerivedFrom(b, contracts, dues) && b.hasDues
    ensures var n := |PairYears(b.dues)| as real;
            n > 0.0 ==> AbsReal(b.growthMicros as real * n - ExactGrowths(b.dues, b.firstYear, b.lastYear)) <= n
  {
    hide Rounded, PairYears, SumOfRatios, ExactGrowths, PairCount;
    StoredDuesPositive(dues);
    var n := PairCount(b.dues, b.firstYear, b.lastYear);
    AllPairsCounted(b.dues, b.firstYear, b.lastYear);
    if n > 0 {
      var sum, exact := SumOfRatios(b.dues, b.firstYear, b.lastYear), ExactGrowths(b.dues, b.firstYear, b.lastYear);
      RatiosNearExact(b.dues, b.firstYear, b.lastYear);
      RoundedError(sum, n);
      MeanNear(b.growthMicros, n, sum, exact);
    }
  }

  lemma MeanNear(mean: int, n: int, sum: int, exact: real)
    requires -n <= 2 * (mean * n - sum) <= n && AbsReal(sum as real - exact) <= 0.5 * n as real
    ensures AbsReal(mean as real * n as real - exact) <= n as real
  {
    Products(mean, n);
    assert (mean * n - sum) as real == (mean * n) as real - sum as real;
  }

  /** The blended rate is the mean of the priced contracts' rates, each counted once for every annual point. */
  lemma BlendIsMean(b: CostBasis, contracts: seq<Contract>, dues: seq<DuesRate>)
    requires DerivedFrom(b, contracts, dues) && b.hasRate
    ensures var points := seq(|contracts|, i requires 0 <= i < |contracts| => PricedPoints(contracts[i]));
            var costs := seq(|contracts|, i requires 0 <= i < |contracts| => PricedCost(contracts[i]));
            2 * Abs(b.blended * SumOf(points) - SumOf(costs)) <= SumOf(points)
  {
    hide Rounded;
    WeightsSum(contracts);
    RoundedError(WeightedRates(contracts), Weight(contracts));
  }

  // ----- Projection

  /** rate, multiplied by num / den and rounded, steps times. */
  function Steps(rate: int, num: int, den: int, steps: nat): int
    requires den > 0
  {
    if steps == 0 then rate else Rounded(Steps(rate, num, den, steps - 1) * num, den)
  }

  /** rate, steps years away, one year at a time; unchanged when there is no growth to divide by. */
  function Compounded(rate: int, growth: int, steps: int): int {
    if growth <= 0 then rate
    else if steps >= 0 then Steps(rate, growth, DUES_GROWTH_BASE, steps)
    else Steps(rate, DUES_GROWTH_BASE, growth, -steps)
  }

  method CompoundDues(b: CostBasis, baseYear: int, steps: int) returns (rate: int)
    ensures rate == Compounded(RateOf(b.dues, baseYear), b.growthMicros, steps)
  {
    var base := RateOf(b.dues, baseYear);
    rate := base;
    if b.growthMicros <= 0 { return; }
    if steps > 0 {
      for i := 0 to steps
        invariant rate == Steps(base, b.growthMicros, DUES_GROWTH_BASE, i)
      {
        rate := Rounded(rate * b.growthMicros, DUES_GROWTH_BASE);
      }
    }
    if -steps > 0 {
      for i := 0 to -steps
        invariant rate == Steps(base, DUES_GROWTH_BASE, b.growthMicros, i)
      {
        rate := Rounded(rate * DUES_GROWTH_BASE, b.growthMicros);
      }
    }
  }

  /** base is the stored year that an unstored year is projected from. */
  ghost predicate ProjectsFrom(b: CostBasis, year: int, base: int) {
    base in b.dues
    && if year > b.lastYear then base == b.lastYear
       else if year < b.firstYear then base == b.firstYear
       else base < year && forall y :: base < y < year ==> y !in b.dues
  }

  method NearestDuesYearBelow(b: CostBasis, year: int) returns (below: int)
    ensures below == b.firstYear || (b.firstYear <= below < year && below in b.dues)
    ensures forall y :: below < y < year && b.firstYear <= y ==> y !in b.dues
  {
    var y := year - 1;
    while y >= b.firstYear
      invariant forall z :: y < z < year ==> z !in b.dues
      decreases y - b.firstYear
    {
      if y in b.dues { return y; }
      y := y - 1;
    }
    return b.firstYear;
  }

  /** There is only one such year. */
  lemma ProjectsFromOne(b: CostBasis, year: int, base: int, base': int)
    requires ProjectsFrom(b, year, base) && ProjectsFrom(b, year, base')
    ensures base == base'
  {
  }

  /** Every year has a rate: the stored one if there is one, and otherwise the projection from the nearest
      stored year on the side that the projection runs from. */
  method DuesFor(b: CostBasis, year: int) returns (rate: int, projected: bool)
    ensures year in b.dues ==> rate == b.dues[year] && !projected
    ensures year !in b.dues && !b.hasDues ==> rate == 0 && !projected
    ensures year !in b.dues && b.hasDues ==> projected
    ensures year !in b.dues && b.hasDues && Spans(b.dues, b.firstYear, b.lastYear) ==>
              && (exists base :: ProjectsFrom(b, year, base))
              && forall base :: ProjectsFrom(b, year, base) ==>
                rate == Compounded(b.dues[base], b.growthMicros, year - base)
  {
    if year in b.dues { return b.dues[year], false; }
    if !b.hasDues { return 0, false; }
    var base;
    if year > b.lastYear {
      base := b.lastYear;
    } else if year < b.firstYear {
      base := b.firstYear;
    } else {
      base := NearestDuesYearBelow(b, year);
    }
    rate := CompoundDues(b, base, year - base);
    projected := true;
    if Spans(b.dues, b.firstYear, b.lastYear) {
      assert ProjectsFrom(b, year, base);
      forall other | ProjectsFrom(b, year, other) ensures other == base {
        ProjectsFromOne(b, year, other, base);
      }
    }
  }

  // ----- How far projection strays from exact growth

  function AbsReal(x: real): real {
    if x < 0.0 then -x else x
  }

  function Power(x: real, k: nat): real {
    if k == 0 then 1.0 else x * Power(x, k - 1)
  }

  /** 1 + x + ... to k terms. */
  function Geometric(x: real, k: nat): real {
    if k == 0 then 0.0 else x * Geometric(x, k - 1) + 1.0
  }

  lemma Products(r: int, d: int)
    ensures (r * d) as real == r as real * d as real
  {
  }

  lemma Half(e: real, d: real, p: real)
    requires d > 0.0 && p == e * d && -d <= 2.0 * p <= d
    ensures AbsReal(e) <= 0.5
  {
    TimesReal(0.5, e, d);
    TimesReal(e, -0.5, d);
  }

  lemma TimesReal(a: real, b: real, x: real)
    ensures a < b && x > 0.0 ==> a * x < b * x
    ensures a <= b && x >= 0.0 ==> a * x <= b * x
  {
  }

  lemma DifferenceTimes(a: real, b: real, x: real)
    ensures (a - b) * x == a * x - b * x
  {
  }

  lemma Regroup(a: real, b: real, c: real)
    ensures a * b * c == a * (b * c) == a * (c * b)
  {
  }

  lemma NearQuotient(r: int, n: int, d: int, q: real)
    requires d > 0 && -d <= 2 * (r * d - n) <= d && q * d as real == n as real
    ensures AbsReal(r as real - q) <= 0.5
  {
    Products(r, d);
    DifferenceTimes(r as real, q, d as real);
    Half(r as real - q, d as real, (r * d - n) as real);
  }

  lemma Triangle(next: real, a: real, b: real, d: real)
    requires -d <= a - b <= d && AbsReal(next - a) <= 0.5
    ensures AbsReal(next - b) <= d + 0.5
  {
  }

  lemma ScaledWithin(e: real, bound: real, x: real)
    requires -bound <= e <= bound && x >= 0.0
    ensures -(bound * x) <= e * x <= bound * x
  {
    assert (bound - e) * x >= 0.0 && (bound + e) * x >= 0.0;
  }

  lemma ErrorStep(r: real, exact: real, x: real, next: real, bound: real)
    requires x >= 0.0 && AbsReal(r - exact) <= bound && AbsReal(next - r * x) <= 0.5
    ensures AbsReal(next - exact * x) <= bound * x + 0.5
  {
    ScaledWithin(r - exact, bound, x);
    DifferenceTimes(r, exact, x);
    Triangle(next, r * x, exact * x, bound * x);
  }

  /** a lies within g halves of r times p. */
  ghost predicate Near(a: real, r: real, p: real, g: real) {
    AbsReal(a - r * p) <= 0.5 * g
  }

  lemma NearItself(r: real)
    ensures Near(r, r, 1.0, 0.0)
  {
  }

  lemma NearStep(a: real, b: real, r: real, x: real, k: nat)
    requires x >= 0.0 && Near(a, r, Power(x, k), Geometric(x, k)) && Near(b, a, x, 1.0)
    ensures Near(b, r, Power(x, k + 1), Geometric(x, k + 1))
  {
    var p, g := Power(x, k), Geometric(x, k);
    ErrorStep(a, r * p, x, b, 0.5 * g);
    Regroup(r, p, x);
    Regroup(0.5, g, x);
  }

  /** Values that each lie within a half of x times the one before lie near the powers of x. */
  lemma {:induction false} ErrorOfSteps(f: nat -> int, x: real, k: nat)
    requires x >= 0.0
    requires forall i: nat :: i < k ==> Near(f(i + 1) as real, f(i) as real, x, 1.0)
    ensures Near(f(k) as real, f(0) as real, Power(x, k), Geometric(x, k))
  {
    hide Near;
    if k == 0 {
      NearItself(f(0) as real);
    } else {
      ErrorOfSteps(f, x, k - 1);
      assert f(k - 1 + 1) == f(k);
      NearStep(f(k - 1) as real, f(k) as real, f(0) as real, x, k - 1);
    }
  }

  lemma StepError(rate: int, num: int, den: int, i: nat, x: real)
    requires den > 0 && x * den as real == num as real
    ensures Near(Steps(rate, num, den, i + 1) as real, Steps(rate, num, den, i) as real, x, 1.0)
  {
    hide Rounded;
    RoundedNear(Steps(rate, num, den, i), num, den, x);
  }

  lemma RoundedNear(r: int, num: int, den: int, x: real)
    requires den > 0 && x * den as real == num as real
    ensures Near(Rounded(r * num, den) as real, r as real, x, 1.0)
  {
    hide Rounded;
    RoundedError(r * num, den);
    Products(r, num);
    Regroup(r as real, x, den as real);
    NearQuotient(Rounded(r * num, den), r * num, den, r as real * x);
  }

  /** Rounding at every step is off from exact compounding by at most half a unit for each step, itself
      grown over the steps that follow. */
  lemma StepsError(rate: int, num: int, den: int, k: nat, x: real)
    requires den > 0 && x >= 0.0 && x * den as real == num as real
    ensures Near(Steps(rate, num, den, k) as real, rate as real, Power(x, k), Geometric(x, k))
  {
    hide Rounded;
    hide Near;
    var f := (i: nat) => Steps(rate, num, den, i);
    forall i: nat | i < k ensures Near(f(i + 1) as real, f(i) as real, x, 1.0) {
      StepError(rate, num, den, i, x);
    }
    ErrorOfSteps(f, x, k);
    assert f(0) == rate;
  }

  /** The exact growth of one step: the mean ratio going forward, its inverse going back. */
  function YearlyFactor(growth: int, forward: bool): (x: real)
    requires growth > 0
    ensures x > 0.0 && if forward then x * 1000000.0 == growth as real else x * growth as real == 1000000.0
  {
    if forward then growth as real / 1000000.0 else 1000000.0 / growth as real
  }

  /** What a projected rate promises: it is the stored base year's rate grown by the mean growth once for
      every year between them, or shrunk by it going back, up to the rounding of each step. */
  lemma ProjectionError(rate: int, growth: int, steps: int)
    requires growth > 0
    ensures var k, x := if steps >= 0 then steps else -steps, YearlyFactor(growth, steps >= 0);
            Near(Compounded(rate, growth, steps) as real, rate as real, Power(x, k), Geometric(x, k))
  {
    hide Rounded;
    hide Near;
    var k, x := if steps >= 0 then steps else -steps, YearlyFactor(growth, steps >= 0);
    if steps >= 0 {
      StepsError(rate, growth, DUES_GROWTH_BASE, k, x);
    } else {
      StepsError(rate, DUES_GROWTH_BASE, growth, k, x);
    }
  }

  lemma RoundedPositive(n: int, d: int)
    requires n >= 0 && d > 0
    ensures Rounded(n, d) >= 0
    ensures Rounded(n, d) > 0 <==> 2 * n >= d
  {
    var q, r := Quotient(n, d), Remainder(n, d);
    assert n == q * d + r;
    if q > 0 {
      TimesAtLeast(q, d);
    }
  }

  lemma {:induction false} SumOfRatiosPositive(dues: map<int, int>, first: int, last: int)
    requires Positive(dues)
    ensures SumOfRatios(dues, first, last) >= 0
    decreases last - first
  {
    hide Rounded;
    if last > first {
      SumOfRatiosPositive(dues, first, last - 1);
      if Adjacent(dues, last - 1) {
        RoundedPositive(dues[last] * DUES_GROWTH_BASE, dues[last - 1]);
      }
    }
  }

  /** Positive rates need not have positive growth. They do unless the ratios come to less than half a
      millionth on average. */
  lemma GrowthPositive(b: CostBasis, contracts: seq<Contract>, dues: seq<DuesRate>)
    requires DerivedFrom(b, contracts, dues) && b.hasDues
    ensures var n := PairCount(b.dues, b.firstYear, b.lastYear);
            b.growthMicros > 0 <==> (n == 0 || 2 * SumOfRatios(b.dues, b.firstYear, b.lastYear) >= n)
    ensures b.growthMicros >= 0
  {
    hide Rounded;
    StoredDuesPositive(dues);
    SumOfRatiosPositive(b.dues, b.firstYear, b.lastYear);
    var n := PairCount(b.dues, b.firstYear, b.lastYear);
    if n > 0 {
      RoundedPositive(SumOfRatios(b.dues, b.firstYear, b.lastYear), n);
    }
  }

  /** Two stored rates, a fall from four dollars to a millionth of one: the growth that the snapshot derives
      from them rounds to none at all. */
  lemma GrowthCanVanish() returns (dues: seq<DuesRate>, b: CostBasis)
    ensures DerivedFrom(b, [], dues) && b.hasDues && b.growthMicros == 0
    ensures forall i :: 0 <= i < |dues| ==> dues[i].rate > 0
  {
    dues := [DuesRate(2020, 4_000_000), DuesRate(2021, 1)];
    var stored := map[2020 := 4_000_000, 2021 := 1];
    assert dues[..1] == [DuesRate(2020, 4_000_000)] && dues[..1][..0] == [];
    assert StoredDues(dues[..1]) == map[2020 := 4_000_000];
    assert StoredDues(dues) == stored;
    assert Ratio(stored, 2020) == Rounded(1_000_000, 4_000_000) == 0;
    assert SumOfRatios(stored, 2020, 2021) == 0 + SumOfRatios(stored, 2020, 2020);
    assert PairCount(stored, 2020, 2021) == 1 + PairCount(stored, 2020, 2020);
    b := CostBasis(map[], 0, false, stored, 2020, 2021, 0, true, 1);
  }

  /** Rates stay non-negative, and every step moves them the way the growth points: never down when it is
      at least one, never up when it is at most one, and so not at all when it is one. */
  lemma {:induction false} StepsFollowGrowth(rate: int, num: int, den: int, k: nat)
    requires rate >= 0 && num >= 0 && den > 0
    ensures Steps(rate, num, den, k) >= 0
    ensures num >= den ==> Steps(rate, num, den, k) >= rate
    ensures num <= den ==> Steps(rate, num, den, k) <= rate
  {
    hide Rounded;
    if k > 0 {
      StepsFollowGrowth(rate, num, den, k - 1);
      RoundedFollows(Steps(rate, num, den, k - 1), num, den);
    }
  }

  lemma RoundedFollows(r: int, num: int, den: int)
    requires r >= 0 && num >= 0 && den > 0
    ensures Rounded(r * num, den) >= 0
    ensures num >= den ==> Rounded(r * num, den) >= r
    ensures num <= den ==> Rounded(r * num, den) <= r
  {
    hide Rounded;
    TimesInOrder(r, 0, num);
    RoundedPositive(r * num, den);
    if num >= den {
      TimesInOrder(r, den, num);
      RoundedBetween(r * num, den, r, Enough(r * num, den));
    }
    if num <= den {
      TimesInOrder(r, num, den);
      RoundedBetween(r * num, den, 0, r);
    }
  }

  /** Some integer with n at most that many times d. */
  function Enough(n: int, d: int): (hi: int)
    requires n >= 0 && d > 0
    ensures n <= hi * d
  {
    n
  }

  /** Each further year moves a projected rate the way the growth points. */
  lemma StepFollowsGrowth(rate: int, growth: int, steps: int)
    requires rate >= 0
    ensures growth >= DUES_GROWTH_BASE ==> Compounded(rate, growth, steps) <= Compounded(rate, growth, steps + 1)
    ensures growth <= DUES_GROWTH_BASE ==> Compounded(rate, growth, steps) >= Compounded(rate, growth, steps + 1)
  {
    hide Rounded;
    if growth > 0 {
      if steps >= 0 {
        StepsFollowGrowth(rate, growth, DUES_GROWTH_BASE, steps);
        RoundedFollows(Steps(rate, growth, DUES_GROWTH_BASE, steps), growth, DUES_GROWTH_BASE);
      } else {
        var k := -steps - 1;
        StepsFollowGrowth(rate, DUES_GROWTH_BASE, growth, k);
        RoundedFollows(Steps(rate, DUES_GROWTH_BASE, growth, k), DUES_GROWTH_BASE, growth);
        assert Steps(rate, DUES_GROWTH_BASE, growth, 0) == rate == Steps(rate, growth, DUES_GROWTH_BASE, 0);
      }
    }
  }

  lemma {:induction false} RatioWithinSum(dues: map<int, int>, first: int, last: int, y: int)
    requires Positive(dues) && Adjacent(dues, y) && first <= y < last
    ensures Ratio(dues, y) <= SumOfRatios(dues, first, last)
    decreases last - y
  {
    hide Rounded;
    SumOfRatiosPositive(dues, first, last - 1);
    if y < last - 1 {
      RatioWithinSum(dues, first, last - 1, y);
      if Adjacent(dues, last - 1) {
        RoundedPositive(dues[last] * DUES_GROWTH_BASE, dues[last - 1]);
      }
    }
  }

  lemma GrowthOfRisingDues(dues: map<int, int>, first: int, last: int)
    requires Positive(dues) && Spans(dues, first, last)
    requires forall y :: y in dues && y + 1 in dues ==> dues[y] <= dues[y + 1]
    ensures Growth(dues, first, last) >= DUES_GROWTH_BASE
  {
    hide Rounded;
    var hi := SumOfRatios(dues, first, last);
    forall y | Adjacent(dues, y) ensures DUES_GROWTH_BASE <= Ratio(dues, y) <= hi {
      RatioWithinSum(dues, first, last, y);
      RoundedBetween(dues[y + 1] * DUES_GROWTH_BASE, dues[y], DUES_GROWTH_BASE, dues[y + 1] * DUES_GROWTH_BASE);
    }
    GrowthWithinRatios(dues, first, last, DUES_GROWTH_BASE, hi);
  }

  /** Dues that never fall from a stored year to the next are never projected to fall, nor those that never
      rise to rise. */
  lemma ProjectionFollowsDues(b: CostBasis, contracts: seq<Contract>, dues: seq<DuesRate>, rate: int, steps: int)
    requires DerivedFrom(b, contracts, dues) && b.hasDues && rate >= 0
    ensures (forall y :: y in b.dues && y + 1 in b.dues ==> b.dues[y] <= b.dues[y + 1]) ==>
              Compounded(rate, b.growthMicros, steps) <= Compounded(rate, b.growthMicros, steps + 1)
    ensures (forall y :: y in b.dues && y + 1 in b.dues ==> b.dues[y] >= b.dues[y + 1]) ==>
              Compounded(rate, b.growthMicros, steps) >= Compounded(rate, b.growthMicros, steps + 1)
  {
    hide Growth, Compounded;
    StoredDuesPositive(dues);
    StepFollowsGrowth(rate, b.growthMicros, steps);
    if forall y :: y in b.dues && y + 1 in b.dues ==> b.dues[y] <= b.dues[y + 1] {
      GrowthOfRisingDues(b.dues, b.firstYear, b.lastYear);
    }
    if forall y :: y in b.dues && y + 1 in b.dues ==> b.dues[y] >= b.dues[y + 1] {
      GrowthWithinRises(b, contracts, dues, 0, DUES_GROWTH_BASE);
    }
  }

  /** With one stored year, or none next to another, every year has the base year's rate. */
  lemma FlatWithoutPairs(b: CostBasis, contracts: seq<Contract>, dues: seq<DuesRate>, base: int, steps: int)
    requires DerivedFrom(b, contracts, dues) && b.hasDues && base in b.dues
    requires forall y :: y in b.dues ==> y + 1 !in b.dues
    ensures Compounded(b.dues[base], b.growthMicros, steps) == b.dues[base]
  {
    hide Rounded;
    StoredDuesPositive(dues);
    NoPairs(b.dues, b.firstYear, b.firstYear, b.lastYear + 1);
    assert !Adjacent(b.dues, b.lastYear);
    var rate := b.dues[base];
    StepsFollowGrowth(rate, DUES_GROWTH_BASE, DUES_GROWTH_BASE, if steps >= 0 then steps else -steps);
  }
}
