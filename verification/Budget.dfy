/** The point budget a trip's search runs against, and what booking does to it. */
module Budget {
  import opened Types
  import opened Allocation
  import opened Accounting
  import opened Booking
  import opened Schema

  // ----- UseYearSummaries: GROUP BY use_year ORDER BY use_year

  datatype UseYearSummary = UseYearSummary(useYear: int, allotted: int, used: int) {
    function Net(): int { allotted - used }
  }

  function AddToYear(groups: seq<UseYearSummary>, e: Entry): seq<UseYearSummary> {
    if groups == [] || e.useYear < groups[0].useYear then [UseYearSummary(e.useYear, e.allotted, e.used)] + groups
    else if groups[0].useYear == e.useYear then
      [UseYearSummary(e.useYear, groups[0].allotted + e.allotted, groups[0].used + e.used)] + groups[1..]
    else [groups[0]] + AddToYear(groups[1..], e)
  }

  function SummariesOf(entries: seq<Entry>): seq<UseYearSummary> {
    if entries == [] then [] else AddToYear(SummariesOf(entries[..|entries| - 1]), entries[|entries| - 1])
  }

  function YearAllotted(entries: seq<Entry>, year: int): int {
    if entries == [] then 0
    else
      var e := entries[|entries| - 1];
      YearAllotted(entries[..|entries| - 1], year) + if e.useYear == year then e.allotted else 0
  }

  function YearUsed(entries: seq<Entry>, year: int): int {
    if entries == [] then 0
    else
      var e := entries[|entries| - 1];
      YearUsed(entries[..|entries| - 1], year) + if e.useYear == year then e.used else 0
  }

  function YearNet(entries: seq<Entry>, year: int): int {
    YearAllotted(entries, year) - YearUsed(entries, year)
  }

  /** The summary a lookup by year finds: the last row of that year, or a zero-valued one. */
  function SummaryFor(summaries: seq<UseYearSummary>, year: int): UseYearSummary {
    if summaries == [] then UseYearSummary(0, 0, 0)
    else if summaries[|summaries| - 1].useYear == year then summaries[|summaries| - 1]
    else SummaryFor(summaries[..|summaries| - 1], year)
  }

  ghost predicate YearsAscend(groups: seq<UseYearSummary>) {
    forall i, j :: 0 <= i < j < |groups| ==> groups[i].useYear < groups[j].useYear
  }

  lemma {:induction false} SummaryForMember(groups: seq<UseYearSummary>, i: nat)
    requires YearsAscend(groups) && i < |groups|
    ensures SummaryFor(groups, groups[i].useYear) == groups[i]
  {
    if i < |groups| - 1 {
      SummaryForMember(groups[..|groups| - 1], i);
    }
  }

  lemma {:induction false} SummaryForStranger(groups: seq<UseYearSummary>, year: int)
    requires forall i :: 0 <= i < |groups| ==> groups[i].useYear != year
    ensures SummaryFor(groups, year) == UseYearSummary(0, 0, 0)
  {
    if groups != [] {
      SummaryForStranger(groups[..|groups| - 1], year);
    }
  }

  /** The group of a year among others: its sums, and zero when there is none. */
  function GroupSums(groups: seq<UseYearSummary>, year: int): (int, int) {
    if groups == [] then (0, 0)
    else if groups[0].useYear == year then (groups[0].allotted, groups[0].used)
    else GroupSums(groups[1..], year)
  }

  lemma {:induction false} AddToYearExact(groups: seq<UseYearSummary>, e: Entry, year: int)
    requires YearsAscend(groups)
    ensures var (a, u), (a', u') := GroupSums(groups, year), GroupSums(AddToYear(groups, e), year);
            if e.useYear == year then a' == a + e.allotted && u' == u + e.used else (a', u') == (a, u)
    ensures YearsAscend(AddToYear(groups, e))
    ensures |AddToYear(groups, e)| > 0
    ensures AddToYear(groups, e)[0].useYear == e.useYear
        || (groups != [] && AddToYear(groups, e)[0].useYear == groups[0].useYear)
  {
    if groups == [] {
    } else if e.useYear < groups[0].useYear {
      NoEarlierGroup(groups, e.useYear);
      assert ([UseYearSummary(e.useYear, e.allotted, e.used)] + groups)[1..] == groups;
    } else if groups[0].useYear < e.useYear {
      AddToYearExact(groups[1..], e, year);
    }
  }

  lemma {:induction false} NoEarlierGroup(groups: seq<UseYearSummary>, year: int)
    requires forall i :: 0 <= i < |groups| ==> groups[i].useYear != year
    ensures GroupSums(groups, year) == (0, 0)
  {
    if groups != [] {
      NoEarlierGroup(groups[1..], year);
    }
  }

  lemma {:induction false} GroupSumsIsLookup(groups: seq<UseYearSummary>, year: int)
    requires YearsAscend(groups)
    ensures GroupSums(groups, year) == (SummaryFor(groups, year).allotted, SummaryFor(groups, year).used)
  {
    if i :| 0 <= i < |groups| && groups[i].useYear == year {
      SummaryForMember(groups, i);
      GroupSumsMember(groups, i);
    } else {
      SummaryForStranger(groups, year);
      NoEarlierGroup(groups, year);
    }
  }

  lemma {:induction false} GroupSumsMember(groups: seq<UseYearSummary>, i: nat)
    requires YearsAscend(groups) && i < |groups|
    ensures GroupSums(groups, groups[i].useYear) == (groups[i].allotted, groups[i].used)
  {
    if i > 0 {
      GroupSumsMember(groups[1..], i - 1);
    }
  }

  /** Looking a year up in the grouped summaries gives the sums over that year's entries. */
  lemma {:induction false} SummariesExact(entries: seq<Entry>, year: int)
    ensures YearsAscend(SummariesOf(entries))
    ensures SummaryFor(SummariesOf(entries), year).allotted == YearAllotted(entries, year)
    ensures SummaryFor(SummariesOf(entries), year).used == YearUsed(entries, year)
  {
    if entries != [] {
      var front := entries[..|entries| - 1];
      SummariesExact(front, year);
      AddToYearExact(SummariesOf(front), entries[|entries| - 1], year);
      GroupSumsIsLookup(SummariesOf(front), year);
      GroupSumsIsLookup(SummariesOf(entries), year);
    }
  }

  // ----- The budget

  datatype TripBudget = TripBudget(useYear: int, current: int, banked: int, borrowable: int, total: int)

  function BudgetOf(entries: seq<Entry>, useYear: int, annual: int): TripBudget {
    var current, banked := YearNet(entries, useYear), YearNet(entries, useYear - 1);
    var borrowable := Max(0, annual - YearUsed(entries, useYear + 1));
    TripBudget(useYear, current, banked, borrowable, current + banked + borrowable)
  }

  function Lookup(m: map<int, UseYearSummary>, year: int): UseYearSummary {
    if year in m then m[year] else UseYearSummary(0, 0, 0)
  }

  method BudgetForUseYear(summaries: seq<UseYearSummary>, useYear: int, annual: int) returns (b: TripBudget)
    ensures b.useYear == useYear && b.total == b.current + b.banked + b.borrowable
    ensures b.current == SummaryFor(summaries, useYear).Net()
    ensures b.banked == SummaryFor(summaries, useYear - 1).Net()
    ensures b.borrowable == Max(0, annual - SummaryFor(summaries, useYear + 1).used)
  {
    var byYear: map<int, UseYearSummary> := map[];
    for i := 0 to |summaries|
      invariant forall y :: Lookup(byYear, y) == SummaryFor(summaries[..i], y)
    {
      assert summaries[..i + 1][..i] == summaries[..i];
      byYear := byYear[summaries[i].useYear := summaries[i]];
    }
    assert summaries[..|summaries|] == summaries;
    var current, banked := Lookup(byYear, useYear).Net(), Lookup(byYear, useYear - 1).Net();
    var borrowable := annual - Lookup(byYear, useYear + 1).used;
    if borrowable < 0 {
      borrowable := 0;
    }
    return TripBudget(useYear, current, banked, borrowable, current + banked + borrowable);
  }

  function AnnualPoints(contracts: seq<Contract>): int {
    if contracts == [] then 0
    else AnnualPoints(contracts[..|contracts| - 1]) + contracts[|contracts| - 1].annualPoints
  }

  method AnnualTotal(contracts: seq<Contract>) returns (annual: int)
    ensures annual == AnnualPoints(contracts)
  {
    annual := 0;
    for i := 0 to |contracts|
      invariant annual == AnnualPoints(contracts[..i])
    {
      assert contracts[..i + 1][..i] == contracts[..i];
      annual := annual + contracts[i].annualPoints;
    }
    assert contracts[..|contracts|] == contracts;
  }

  function BudgetUseYear(db: Db, start: Date): int {
    UseYearForDate(start, UseYearStartMonth(db.contracts))
  }

  /** The budget for a trip starting on a date: its use year is the one that holds the date's month, counted
      from the first contract's month, or from January when there is none. */
  method TripBudgetFor(db: Db, start: Date) returns (b: TripBudget)
    ensures b == BudgetOf(db.entries, BudgetUseYear(db, start), AnnualPoints(db.contracts))
    ensures b.current == YearAllotted(db.entries, b.useYear) - YearUsed(db.entries, b.useYear)
    ensures b.banked == YearAllotted(db.entries, b.useYear - 1) - YearUsed(db.entries, b.useYear - 1)
    ensures b.borrowable == Max(0, AnnualPoints(db.contracts) - YearUsed(db.entries, b.useYear + 1))
    ensures b.total == b.current + b.banked + b.borrowable
    ensures var month := if db.contracts == [] then 1 else db.contracts[0].useYearMonth;
            1 <= month <= 12 && 1 <= start.month <= 12 ==>
              12 * b.useYear + month <= 12 * start.year + start.month < 12 * (b.useYear + 1) + month
  {
    hide SummariesOf, SummaryFor, YearAllotted, YearUsed, AnnualPoints;
    var annual := AnnualTotal(db.contracts);
    var useYear := BudgetUseYear(db, start);
    SummariesExact(db.entries, useYear);
    SummariesExact(db.entries, useYear - 1);
    SummariesExact(db.entries, useYear + 1);
    b := BudgetForUseYear(SummariesOf(db.entries), useYear, annual);
  }

  function EffectiveBudget(t: Trip, b: TripBudget): int {
    if t.budgetOverride.Some? then t.budgetOverride.value else b.total
  }

  /** The effective budget less the points of stays not yet booked. */
  method SearchBudgetFor(t: Trip, b: TripBudget, stays: seq<TripStay>) returns (budget: int)
    ensures budget == EffectiveBudget(t, b) - PointsOf(Unbooked(stays))
    ensures t.budgetOverride.None? ==> budget + PointsOf(Unbooked(stays)) == b.total
    ensures t.budgetOverride.Some? ==> Some(budget + PointsOf(Unbooked(stays))) == t.budgetOverride
  {
    budget := EffectiveBudget(t, b);
    for i := 0 to |stays|
      invariant budget == EffectiveBudget(t, b) - PointsOf(Unbooked(stays[..i]))
    {
      assert stays[..i + 1] == stays[..i] + [stays[i]];
      UnbookedConcat(stays[..i], [stays[i]]);
      assert Unbooked([stays[i]]) == if stays[i].Booked() then [] else [stays[i]];
      assert Unbooked(stays[..i]) + [] == Unbooked(stays[..i]);
      if !stays[i].Booked() {
        PointsConcat(Unbooked(stays[..i]), stays[i]);
        budget := budget - stays[i].row.points;
      }
    }
    assert stays[..|stays|] == stays;
  }

  lemma TailOfConcat(a: seq<TripStay>, b: seq<TripStay>)
    requires a != []
    ensures (a + b)[0] == a[0] && (a + b)[1..] == a[1..] + b
  {
  }

  lemma Regroup(a: seq<TripStay>, b: seq<TripStay>, c: seq<TripStay>)
    ensures a + b + c == a + (b + c)
  {
  }

  lemma {:induction false} UnbookedConcat(a: seq<TripStay>, b: seq<TripStay>)
    ensures Unbooked(a + b) == Unbooked(a) + Unbooked(b)
  {
    if a == [] {
      assert a + b == b;
    } else {
      UnbookedConcat(a[1..], b);
      TailOfConcat(a, b);
      Regroup([a[0]], Unbooked(a[1..]), Unbooked(b));
    }
  }

  lemma PointsConcat(a: seq<TripStay>, st: TripStay)
    ensures PointsOf(a + [st]) == PointsOf(a) + st.row.points
  {
    assert (a + [st])[..|a|] == a;
  }

  // ----- What booking does to it

  function DrawnInYear(ds: seq<Draw>, year: int): int {
    if ds == [] then 0
    else
      var last := ds[|ds| - 1];
      DrawnInYear(ds[..|ds| - 1], year) + if last.key.year == year then last.points else 0
  }

  /** Every draw is banked, current or borrowed with respect to one use year. */
  ghost predicate YearsMatch(ds: seq<Draw>, useYear: int) {
    forall i :: 0 <= i < |ds| ==>
      ds[i].disposition != Unset && ds[i].key.year == useYear - 1 + RankOf(ds[i].disposition)
  }

  lemma {:induction false} DrawnInYearIsDisposition(ds: seq<Draw>, useYear: int)
    requires YearsMatch(ds, useYear)
    ensures DrawnInYear(ds, useYear + 1) == DrawnAs(ds, Borrowed)
    ensures DrawnInYear(ds, useYear - 1) + DrawnInYear(ds, useYear) + DrawnInYear(ds, useYear + 1) == TotalDrawn(ds)
  {
    if ds != [] {
      DrawnInYearIsDisposition(ds[..|ds| - 1], useYear);
    }
  }

  lemma {:induction false} DrawnInYearConcat(a: seq<Draw>, b: seq<Draw>, year: int)
    ensures DrawnInYear(a + b, year) == DrawnInYear(a, year) + DrawnInYear(b, year)
  {
    if b == [] {
      assert a + b == a;
    } else {
      DrawnInYearConcat(a, b[..|b| - 1], year);
      assert (a + b)[..|a + b| - 1] == a + b[..|b| - 1];
    }
  }

  lemma {:induction false} PostedInYear(db: Db, t: Trip, st: StayRow, ds: seq<Draw>, year: int)
    ensures var after := PostDraws(db, t, st, ds);
            && YearAllotted(after.entries, year) == YearAllotted(db.entries, year)
            && YearUsed(after.entries, year) == YearUsed(db.entries, year) + DrawnInYear(ds, year)
  {
    if ds != [] {
      PostedInYear(db, t, st, ds[..|ds| - 1], year);
      var mid, after := PostDraws(db, t, st, ds[..|ds| - 1]), PostDraws(db, t, st, ds);
      assert after.entries[..|after.entries| - 1] == mid.entries;
    }
  }

  lemma {:induction false} PlanInYear(db: Db, t: Trip, plan: seq<Funded>, year: int)
    ensures var after := PostPlan(db, t, plan);
            && YearAllotted(after.entries, year) == YearAllotted(db.entries, year)
            && YearUsed(after.entries, year) == YearUsed(db.entries, year) + DrawnInYear(AllDraws(plan), year)
  {
    if plan != [] {
      var front, last := plan[..|plan| - 1], plan[|plan| - 1];
      PlanInYear(db, t, front, year);
      PostedInYear(PostPlan(db, t, front), t, last.stay.row, last.draws, year);
      DrawnInYearConcat(AllDraws(front), last.draws, year);
    }
  }

  ghost predicate OneMonth(contracts: seq<Contract>, month: int) {
    forall i :: 0 <= i < |contracts| ==> contracts[i].useYearMonth == month
  }

  lemma {:induction false} OneMonthMap(contracts: seq<Contract>, month: int)
    requires OneMonth(contracts, month)
    ensures forall id :: id in MonthsOf(contracts) ==> MonthsOf(contracts)[id] == month
  {
    if contracts != [] {
      OneMonthMap(contracts[..|contracts| - 1], month);
    }
  }

  lemma AllocatedYears(p: Pool, checkIn: Date, points: int, month: int)
    requires points > 0 && Allocate(p, checkIn, points).Some? && OneMonth(p.contracts, month)
    ensures YearsMatch(Allocate(p, checkIn, points).value, UseYearForDate(checkIn, month))
  {
    hide Allocate, Balance, HasKey, MonthsOf, Drawn, TotalDrawn;
    AllocateFunds(p, checkIn, points);
    OneMonthMap(p.contracts, month);
    var ds := Allocate(p, checkIn, points).value;
    forall i | 0 <= i < |ds|
      ensures ds[i].disposition != Unset
              && ds[i].key.year == UseYearForDate(checkIn, month) - 1 + RankOf(ds[i].disposition)
    {
      assert Permitted(p, checkIn, ds[i]);
    }
  }

  /** Every unbooked stay checks in within the use year. */
  ghost predicate WithinUseYear(stays: seq<TripStay>, month: int, useYear: int) {
    forall i :: 0 <= i < |stays| && !stays[i].Booked() ==> UseYearForDate(stays[i].row.checkIn, month) == useYear
  }

  lemma {:induction false} PlannedYears(p: Pool, legacyUsed: int, stays: seq<TripStay>, month: int, useYear: int)
    requires Payable(stays) && Plan(p, legacyUsed, stays).Some?
    requires OneMonth(p.contracts, month) && WithinUseYear(stays, month, useYear)
    ensures forall j :: 0 <= j < |Plan(p, legacyUsed, stays).value| ==>
              YearsMatch(Plan(p, legacyUsed, stays).value[j].draws, useYear)
    decreases |stays|
  {
    if stays != [] {
      if stays[0].Booked() {
        PlannedYears(p, legacyUsed, stays[1..], month, useYear);
      } else {
        var st := stays[0].row;
        var ds := FundStay(p, legacyUsed, st.checkIn, st.points).value;
        AllocatedYears(p, st.checkIn, st.points, month);
        PlannedYears(p.Spend(ds), legacyUsed, stays[1..], month, useYear);
      }
    }
  }

  lemma {:induction false} AllDrawsYears(plan: seq<Funded>, useYear: int)
    requires forall j :: 0 <= j < |plan| ==> YearsMatch(plan[j].draws, useYear)
    ensures YearsMatch(AllDraws(plan), useYear)
  {
    if plan != [] {
      AllDrawsYears(plan[..|plan| - 1], useYear);
    }
  }

  /** The trip's search budget as the database stands. */
  function SearchBudget(db: Db, t: Trip): int {
    EffectiveBudget(t, BudgetOf(db.entries, BudgetUseYear(db, t.startDate), AnnualPoints(db.contracts)))
    - PointsOf(Unbooked(ListStays(db, t.id)))
  }

  /** The draws of a dry run, stay by stay. */
  function PreviewDraws(stays: seq<StayFunding>): seq<Draw> {
    if stays == [] then [] else PreviewDraws(stays[..|stays| - 1]) + stays[|stays| - 1].draws
  }

  /** The draws that the dry run shows before a trip is booked. */
  function DrawsShown(db: Db, trip: int): seq<Draw> {
    PreviewDraws(PreviewFrom(PoolOf(db), UnattributedUsage(db.entries), ListStays(db, trip)).stays)
  }

  lemma {:induction false} PreviewDrawsExact(stays: seq<StayFunding>, plan: seq<Funded>)
    requires |stays| == |plan| && forall j :: 0 <= j < |plan| ==> stays[j].draws == plan[j].draws
    ensures PreviewDraws(stays) == AllDraws(plan)
  {
    if plan != [] {
      PreviewDrawsExact(stays[..|stays| - 1], plan[..|plan| - 1]);
    }
  }

  lemma ShownAreBooked(db: Db, trip: int)
    requires BookOnce(db, trip).Ok?
    ensures DrawsShown(db, trip) == AllDraws(TripPlan(db, trip))
  {
    hide FundStay;
    var preview := PreviewFrom(PoolOf(db), UnattributedUsage(db.entries), ListStays(db, trip));
    PreviewIsPlan(PoolOf(db), UnattributedUsage(db.entries), ListStays(db, trip));
    PreviewDrawsExact(preview.stays, TripPlan(db, trip));
  }

  lemma NothingUnbooked(stays: seq<TripStay>)
    requires forall i :: 0 <= i < |stays| ==> stays[i].Booked()
    ensures Unbooked(stays) == []
  {
    if stays != [] {
      NothingUnbooked(stays[1..]);
    }
  }

  ghost predicate AllPositive(ds: seq<Draw>) {
    forall i :: 0 <= i < |ds| ==> ds[i].points > 0
  }

  /** Every point is drawn from a use year that the budget reads. */
  ghost predicate InView(ds: seq<Draw>, useYear: int) {
    forall i :: 0 <= i < |ds| ==> useYear - 1 <= ds[i].key.year <= useYear + 1
  }

  /** Points drawn from use years that the budget does not read. */
  function OutOfView(ds: seq<Draw>, useYear: int): int {
    TotalDrawn(ds) - DrawnInYear(ds, useYear - 1) - DrawnInYear(ds, useYear) - DrawnInYear(ds, useYear + 1)
  }

  lemma {:induction false} OutOfViewExact(ds: seq<Draw>, useYear: int)
    requires AllPositive(ds)
    ensures OutOfView(ds, useYear) >= 0 && DrawnInYear(ds, useYear + 1) >= 0
    ensures OutOfView(ds, useYear) == 0 <==> InView(ds, useYear)
  {
    if ds != [] {
      var front, last := ds[..|ds| - 1], ds[|ds| - 1];
      OutOfViewExact(front, useYear);
      assert InView(ds, useYear) <==> InView(front, useYear) && useYear - 1 <= last.key.year <= useYear + 1 by {
        assert ds == front + [last];
      }
    }
  }

  lemma {:induction false} AllDrawsPositive(plan: seq<Funded>)
    requires forall j :: 0 <= j < |plan| ==> Covers(plan[j])
    ensures AllPositive(AllDraws(plan))
  {
    if plan != [] {
      AllDrawsPositive(plan[..|plan| - 1]);
      assert Covers(plan[|plan| - 1]);
    }
  }

  /** What is left to borrow from the year after. */
  function Borrowable(db: Db, useYear: int): int {
    Max(0, AnnualPoints(db.contracts) - YearUsed(db.entries, useYear + 1))
  }

  lemma PlanMovesBudget(db: Db, t: Trip, plan: seq<Funded>, uy: int)
    requires forall j :: 0 <= j < |plan| ==> Covers(plan[j])
    ensures var draws, annual := AllDraws(plan), AnnualPoints(db.contracts);
            BudgetOf(PostPlan(db, t, plan).entries, uy, annual).total ==
            BudgetOf(db.entries, uy, annual).total - TotalDrawn(draws) + OutOfView(draws, uy)
            + Max(0, DrawnInYear(draws, uy + 1) - Borrowable(db, uy))
  {
    hide DrawnInYear, AllDraws, PostPlan, YearAllotted, YearUsed, Covers, AnnualPoints, TotalDrawn;
    var after, draws := PostPlan(db, t, plan), AllDraws(plan);
    AllDrawsPositive(plan);
    OutOfViewExact(draws, uy);
    var banked, current, borrowed := DrawnInYear(draws, uy - 1), DrawnInYear(draws, uy), DrawnInYear(draws, uy + 1);
    assert YearNet(after.entries, uy - 1) == YearNet(db.entries, uy - 1) - banked by
      { PlanInYear(db, t, plan, uy - 1); }
    assert YearNet(after.entries, uy) == YearNet(db.entries, uy) - current by { PlanInYear(db, t, plan, uy); }
    assert YearUsed(after.entries, uy + 1) == YearUsed(db.entries, uy + 1) + borrowed by
      { PlanInYear(db, t, plan, uy + 1); }
  }

  /** How far booking a trip moves its search budget, from what is known before: with an override, by all
      the unbooked points, which leave the subtraction and enter nothing that is read; without one, by the
      points drawn from use years that the budget does not read, and by those drawn from the next year that
      the clamp on the borrowable part hides. */
  function BudgetShift(db: Db, t: Trip): int {
    var draws, uy := DrawsShown(db, t.id), BudgetUseYear(db, t.startDate);
    if t.budgetOverride.Some? then PointsOf(Unbooked(ListStays(db, t.id)))
    else OutOfView(draws, uy) + Max(0, DrawnInYear(draws, uy + 1) - Borrowable(db, uy))
  }

  /** A booked trip's plan, with what the budget needs to know of it. */
  lemma BookedPlan(db: Db, t: Trip) returns (plan: seq<Funded>)
    requires Consistent(db) && BookOnce(db, t.id).Ok? && FindTrip(db.trips, t.id) == Some(t)
    ensures BookOnce(db, t.id).value == PostPlan(db, t, plan) && FundsTrip(db, t.id, plan)
    ensures plan == TripPlan(db, t.id) && DrawsShown(db, t.id) == AllDraws(plan)
    ensures TotalDrawn(AllDraws(plan)) == PointsOf(Unbooked(ListStays(db, t.id)))
  {
    hide DrawsShown, ListStays;
    plan := TripPlan(db, t.id);
    TripPlanExact(db, t.id);
    PlanTotal(plan, Unbooked(ListStays(db, t.id)));
    ShownAreBooked(db, t.id);
  }

  lemma NothingUnbookedAfter(db: Db, t: Trip, plan: seq<Funded>)
    requires Consistent(db) && FundsTrip(db, t.id, plan)
    ensures Unbooked(ListStays(PostPlan(db, t, plan), t.id)) == []
    ensures PostPlan(db, t, plan).contracts == db.contracts
  {
    hide ListStays, FundsTrip;
    ConsistentIsBounded(db);
    PlanShape(db, t, plan);
    NothingLeftToBook(db, t, t.id, plan);
    NothingUnbooked(ListStays(PostPlan(db, t, plan), t.id));
  }

  lemma CoversOfFunds(db: Db, trip: int, plan: seq<Funded>)
    requires FundsTrip(db, trip, plan)
    ensures forall j :: 0 <= j < |plan| ==> Covers(plan[j])
  {
    hide Covers, View;
  }

  lemma PostedPlanBudget(db: Db, t: Trip, plan: seq<Funded>)
    requires Consistent(db) && FundsTrip(db, t.id, plan)
    ensures var draws, uy := AllDraws(plan), BudgetUseYear(db, t.startDate);
            SearchBudget(PostPlan(db, t, plan), t) - SearchBudget(db, t) ==
            PointsOf(Unbooked(ListStays(db, t.id)))
            + if t.budgetOverride.Some? then 0
              else -TotalDrawn(draws) + OutOfView(draws, uy) + Max(0, DrawnInYear(draws, uy + 1) - Borrowable(db, uy))
  {
    hide Consistent, FundsTrip, Covers, PostPlan, ListStays, DrawnInYear, AllDraws, TotalDrawn, AnnualPoints, OutOfView,
         Borrowable, YearNet, YearUsed, Unbooked;
    CoversOfFunds(db, t.id, plan);
    NothingUnbookedAfter(db, t, plan);
    PlanMovesBudget(db, t, plan, BudgetUseYear(db, t.startDate));
  }

  /** For every trip that is booked: with or without an override, whatever the contracts' months and
      wherever its stays fall. The budget never falls. */
  lemma BookingMovesBudget(db: Db, t: Trip)
    requires Consistent(db) && BookOnce(db, t.id).Ok? && FindTrip(db.trips, t.id) == Some(t)
    ensures SearchBudget(BookOnce(db, t.id).value, t) - SearchBudget(db, t) == BudgetShift(db, t)
    ensures BudgetShift(db, t) >= 0
  {
    hide BookOnce, Consistent, SearchBudget, DrawsShown, TripPlan, DrawnInYear, OutOfView, Borrowable, ListStays,
         AllDraws,
         FundsTrip, PostPlan, BudgetUseYear, TotalDrawn, Unbooked, Covers, AllPositive;
    var plan := BookedPlan(db, t);
    CoversOfFunds(db, t.id, plan);
    AllDrawsPositive(plan);
    OutOfViewExact(AllDraws(plan), BudgetUseYear(db, t.startDate));
    PostedPlanBudget(db, t, plan);
    DrawnNonNegative(AllDraws(plan));
  }

  lemma {:induction false} DrawnNonNegative(ds: seq<Draw>)
    requires AllPositive(ds)
    ensures TotalDrawn(ds) >= 0
  {
    if ds != [] {
      DrawnNonNegative(ds[..|ds| - 1]);
    }
  }

  lemma {:induction false} NoPointsLeft(stays: seq<TripStay>)
    requires forall i :: 0 <= i < |stays| ==> stays[i].row.points > 0
    ensures PointsOf(stays) >= 0 && (PointsOf(stays) == 0 <==> stays == [])
  {
    if stays != [] {
      NoPointsLeft(stays[..|stays| - 1]);
    }
  }

  /** Booking leaves the search budget where it was exactly when, with an override, there was nothing to
      book; and without one, the dry run draws only from the three use years that the budget reads, and from
      the last of them no more than is left to borrow. */
  lemma BookingKeepsBudgetExactly(db: Db, t: Trip)
    requires Consistent(db) && BookOnce(db, t.id).Ok? && FindTrip(db.trips, t.id) == Some(t)
    ensures SearchBudget(BookOnce(db, t.id).value, t) == SearchBudget(db, t) <==>
            var draws, uy := DrawsShown(db, t.id), BudgetUseYear(db, t.startDate);
            if t.budgetOverride.Some? then Unbooked(ListStays(db, t.id)) == []
            else InView(draws, uy) && DrawnInYear(draws, uy + 1) <= Borrowable(db, uy)
  {
    hide BookOnce, Consistent, SearchBudget, DrawsShown, TripPlan, DrawnInYear, OutOfView, Borrowable, ListStays,
         AllDraws,
         FundsTrip, PostPlan, BudgetUseYear, TotalDrawn, Unbooked, Covers, AllPositive, InView;
    var plan := BookedPlan(db, t);
    UnbookedPayable(db, t.id);
    NoPointsLeft(Unbooked(ListStays(db, t.id)));
    CoversOfFunds(db, t.id, plan);
    AllDrawsPositive(plan);
    OutOfViewExact(AllDraws(plan), BudgetUseYear(db, t.startDate));
    BookingMovesBudget(db, t);
  }

  lemma UnbookedPayable(db: Db, trip: int)
    requires Consistent(db)
    ensures var unbooked := Unbooked(ListStays(db, trip));
            forall i :: 0 <= i < |unbooked| ==> unbooked[i].row.points > 0
  {
    ListStaysExact(db, trip);
    var stays := ListStays(db, trip);
    UnbookedExact(stays);
    forall i | 0 <= i < |Unbooked(stays)| ensures Unbooked(stays)[i].row.points > 0 {
      assert Unbooked(stays)[i] in stays;
    }
  }

  // ----- One use-year month, and stays within the displayed use year

  /** The points a booking borrows from the next use year. */
  function BorrowedBy(db: Db, trip: int): int
    requires BookOnce(db, trip).Ok?
  {
    DrawnAs(AllDraws(TripPlan(db, trip)), Borrowed)
  }

  ghost predicate Displayed(db: Db, t: Trip) {
    && FindTrip(db.trips, t.id) == Some(t) && t.budgetOverride.None?
    && OneMonth(db.contracts, UseYearStartMonth(db.contracts))
    && WithinUseYear(ListStays(db, t.id), UseYearStartMonth(db.contracts), BudgetUseYear(db, t.startDate))
  }

  /** Then booking moves the budget by exactly the borrowed points that the clamp hides: banked and current
      points cancel, and borrowed points cancel as far as borrowable points remain. */
  lemma BookingMovesBudgetBy(db: Db, t: Trip)
    requires Consistent(db) && BookOnce(db, t.id).Ok? && Displayed(db, t)
    ensures SearchBudget(BookOnce(db, t.id).value, t) - SearchBudget(db, t) ==
            Max(0, BorrowedBy(db, t.id) - Borrowable(db, BudgetUseYear(db, t.startDate)))
  {
    hide SearchBudget, BookOnce, Consistent, Borrowable, DrawnInYear, DrawnAs, AllDraws, BudgetUseYear, DrawsShown,
         TripPlan, PostPlan, FundsTrip, YearsMatch, TotalDrawn, ListStays, Unbooked, OneMonth, WithinUseYear;
    var uy := BudgetUseYear(db, t.startDate);
    var plan := BookedPlan(db, t);
    TripPlanYears(db, t);
    AllDrawsYears(plan, uy);
    DrawnInYearIsDisposition(AllDraws(plan), uy);
    BookingMovesBudget(db, t);
  }

  lemma TripPlanYears(db: Db, t: Trip)
    requires Consistent(db) && BookOnce(db, t.id).Ok? && Displayed(db, t)
    ensures forall j :: 0 <= j < |TripPlan(db, t.id)| ==>
              YearsMatch(TripPlan(db, t.id)[j].draws, BudgetUseYear(db, t.startDate))
  {
    ListStaysExact(db, t.id);
    PlannedYears(PoolOf(db), UnattributedUsage(db.entries), ListStays(db, t.id),
                 UseYearStartMonth(db.contracts), BudgetUseYear(db, t.startDate));
  }

  /** And it leaves the budget where it was exactly when what it borrows is still borrowable. */
  lemma BookingKeepsBudget(db: Db, t: Trip)
    requires Consistent(db) && BookOnce(db, t.id).Ok? && Displayed(db, t)
    ensures SearchBudget(BookOnce(db, t.id).value, t) == SearchBudget(db, t) <==>
            BorrowedBy(db, t.id) <= Borrowable(db, BudgetUseYear(db, t.startDate))
  {
    hide SearchBudget, BorrowedBy, BookOnce, Consistent, Displayed, AnnualPoints, YearUsed, BudgetUseYear;
    BookingMovesBudgetBy(db, t);
  }

  // ----- A booking that does move it

  function BonusTrip(): Trip {
    Trip(1, "", Date(0, 2026, 6), Date(5, 2026, 6), 1, None)
  }

  function BonusStay(): StayRow {
    StayRow(1, 1, "", "", Date(0, 2026, 6), Date(5, 2026, 6), 5, 50)
  }

  /** No annual points left to borrow, but 50 bonus points posted to the next use year. */
  function BonusDb(): Db {
    Db([Contract(1, "", 0, 1, 0, 0, 0)], [BonusTrip()], [BonusStay()],
       [Entry(1, 2027, Date(0, 2026, 6), "", Bonus, 50, 0, "", Some(1))], {}, 2, 2, 2)
  }

  function BonusOnly(): Pool {
    Pool([Contract(1, "", 0, 1, 0, 0, 0)], [Lot(LotKey(1, 2027), 50)], [])
  }

  lemma BonusBalance()
    ensures MonthsOf(BonusOnly().contracts) == map[1 := 1]
    ensures Balance(BonusOnly(), LotKey(1, 2027)) == 50 && TotalLots(BonusOnly().lots) == 50
  {
    var p := BonusOnly();
    assert p.contracts[..0] == [] && p.lots[..0] == [];
    assert Granted(p.lots[..0], LotKey(1, 2027)) == 0;
  }

  lemma BonusOffers(checkIn: Date)
    requires checkIn == Date(0, 2026, 6)
    ensures Offers(BonusOnly(), checkIn) == [Offer(LotKey(1, 2027), Borrowed, 50)]
  {
    hide MonthsOf, Balance;
    BonusBalance();
    var p, o := BonusOnly(), Offer(LotKey(1, 2027), Borrowed, 50);
    assert OfferAt(p, checkIn, o.key) == Some(o);
    assert p.lots[..0] == [] && [o][..0] == [];
    assert Collect(p, checkIn, p.lots[..0]) == [] && Collect(p, checkIn, p.lots) == [o];
  }

  lemma BonusOffer(p: Pool, checkIn: Date)
    requires p == BonusOnly() && checkIn == Date(0, 2026, 6)
    ensures FundStay(p, 0, checkIn, 50) == Some([Draw(LotKey(1, 2027), Borrowed, 50)])
  {
    hide Offers, Balance, MonthsOf;
    BonusBalance();
    BonusOffers(checkIn);
    var o, d := Offer(LotKey(1, 2027), Borrowed, 50), Draw(LotKey(1, 2027), Borrowed, 50);
    assert [o][1..] == [] && Walk([], 0) == Some([]) && [d] + [] == [d];
    assert Walk([o], 50) == Some([d]);
  }

  lemma BonusPool()
    ensures PoolOf(BonusDb()) == BonusOnly()
    ensures UnattributedUsage(BonusDb().entries) == 0 && YearUsed(BonusDb().entries, 2027) == 0
  {
    var es := BonusDb().entries;
    assert es[..0] == [];
    assert LotsOf(es[..0]) == [] && LotsOf(es) == [Lot(LotKey(1, 2027), 50)];
    assert ConsumedGroups(es[..0]) == [] && ConsumedGroups(es) == [] && AsDraws([]) == [];
  }

  lemma BonusView(db: Db, st: StayRow)
    requires |db.entries| == 1 && db.links == {}
    ensures View(db, st) == TripStay(st, [], 0)
  {
    assert db.entries[..0] == [];
    assert LinkedEntries(db.entries[..0], db.links, st.id) == [];
    assert LinkedEntries(db.entries, db.links, st.id) == [];
  }

  lemma BonusListed()
    ensures ListStays(BonusDb(), 1) == [TripStay(BonusStay(), [], 0)]
  {
    var db, st := BonusDb(), BonusStay();
    assert db.stays[..0] == [] && [st][..0] == [];
    assert StaysOfTrip(db.stays, 1) == [st];
    assert TripRows(db, 1) == [st];
    BonusView(db, st);
  }

  lemma BonusConsistent()
    ensures Consistent(BonusDb())
  {
    var db := BonusDb();
    BonusView(db, BonusStay());
    assert db.trips[0].id == 1 && HasTrip(db, 1);
  }

  lemma BonusPlanned(p: Pool, st: TripStay, ds: seq<Draw>)
    requires !st.Booked() && FundStay(p, 0, st.row.checkIn, st.row.points) == Some(ds)
    ensures Plan(p, 0, [st]) == Some([Funded(st, ds)])
    ensures AllDraws([Funded(st, ds)]) == ds
  {
    assert [st][1..] == [] && Plan(p.Spend(ds), 0, []) == Some([]);
    assert [Funded(st, ds)] + [] == [Funded(st, ds)] && [Funded(st, ds)][..0] == [] && [] + ds == ds;
  }

  lemma BonusCase() returns (db: Db, t: Trip)
    ensures Consistent(db) && BookOnce(db, t.id).Ok? && Displayed(db, t) && BorrowedBy(db, t.id) == 50
    ensures AnnualPoints(db.contracts) == 0 && YearUsed(db.entries, BudgetUseYear(db, t.startDate) + 1) == 0
  {
    db, t := BonusDb(), BonusTrip();
    BonusConsistent();
    BonusBooked();
    BonusDisplayed();
    BonusPool();
    assert db.contracts[..0] == [];
  }

  /** Booking a stay of 50 points funded by next year's bonus points raises the budget by 50. */
  lemma BookingCanMoveBudget() returns (db: Db, t: Trip)
    ensures Consistent(db) && BookOnce(db, t.id).Ok? && Displayed(db, t)
    ensures SearchBudget(BookOnce(db, t.id).value, t) == SearchBudget(db, t) + 50
  {
    hide SearchBudget, BorrowedBy, BookOnce, Consistent, Displayed, AnnualPoints, YearUsed, BudgetUseYear;
    db, t := BonusCase();
    BookingMovesBudgetBy(db, t);
  }

  lemma BonusBooked()
    ensures BookOnce(BonusDb(), 1).Ok? && BorrowedBy(BonusDb(), 1) == 50
  {
    var st, ds := TripStay(BonusStay(), [], 0), [Draw(LotKey(1, 2027), Borrowed, 50)];
    BonusListed();
    BonusPool();
    BonusOffer(PoolOf(BonusDb()), BonusTrip().startDate);
    BonusPlanned(PoolOf(BonusDb()), st, ds);
    PlanDecides(BonusDb(), 1, PoolOf(BonusDb()), [st], [Funded(st, ds)]);
    assert ds[..0] == [] && DrawnAs(ds, Borrowed) == 50;
  }

  lemma PlanDecides(db: Db, trip: int, p: Pool, stays: seq<TripStay>, plan: seq<Funded>)
    requires FindTrip(db.trips, trip).Some? && ListStays(db, trip) == stays
    requires PoolOf(db) == p && UnattributedUsage(db.entries) == 0 && Plan(p, 0, stays) == Some(plan)
    ensures BookOnce(db, trip).Ok? && TripPlan(db, trip) == plan
  {
  }

  lemma BonusDisplayed()
    ensures Displayed(BonusDb(), BonusTrip())
  {
    BonusListed();
  }
}
