/** The stay search: every stay a chart offers within a window and a budget. Dates are day numbers,
day 0 being Thursday 1 January 1970. */
module Search {
  import opened Types
  import Sorting

  /** The longest stay allowed. */
  const MAX_NIGHTS := 30

  /** An inclusive range of days; None is an end that does not parse as a date. */
  datatype DateRange = DateRange(start: Option<int>, end: Option<int>)

  /** Periods sharing one rate tier, with a rate per column. */
  datatype Season = Season(periods: seq<DateRange>, sunThu: seq<int>, friSat: seq<int>)

  datatype Column = Column(roomType: string, view: string)

  datatype ResortChart = ResortChart(resortName: string, resortCode: string, columns: seq<Column>, seasons: seq<Season>)

  datatype Params = Params(
    windowStart: int, windowEnd: int, budget: int, minNights: int,
    excludeResorts: seq<string>, excludeRoomTypes: seq<string>)

  datatype StayResult = StayResult(
    resort: string, roomType: string, view: string, checkIn: int, checkOut: int, nights: int, points: int)

  // ----- One night's rate

  function Weekday(day: int): int {
    (day + 4) % 7
  }

  predicate IsWeekend(day: int) {
    Weekday(day) == 5 || Weekday(day) == 6
  }

  /** Whether the range holds the day; None when an end does not parse. */
  function Contains(r: DateRange, day: int): Option<bool> {
    if r.start.None? || r.end.None? then None else Some(r.start.value <= day <= r.end.value)
  }

  ghost predicate RowsFit(chart: ResortChart) {
    forall i :: 0 <= i < |chart.seasons| ==>
      |chart.seasons[i].sunThu| >= |chart.columns| && |chart.seasons[i].friSat| >= |chart.columns|
  }

  ghost predicate SeasonsFit(seasons: seq<Season>, col: nat) {
    forall i :: 0 <= i < |seasons| ==> |seasons[i].sunThu| > col && |seasons[i].friSat| > col
  }

  datatype Probe = Missed | Failed | Held

  /** The first period, in order, that holds the day or fails to parse. */
  function ProbePeriods(periods: seq<DateRange>, day: int): Probe {
    if periods == [] then Missed
    else
      match Contains(periods[0], day)
      case None => Failed
      case Some(held) => if held then Held else ProbePeriods(periods[1..], day)
  }

  function RateIn(s: Season, day: int, col: nat): int
    requires |s.sunThu| > col && |s.friSat| > col
  {
    if IsWeekend(day) then s.friSat[col] else s.sunThu[col]
  }

  /** The rate of the first season that holds the day; None when none does, or a date fails to parse
      before one does. */
  function NightRate(seasons: seq<Season>, day: int, col: nat): Option<int>
    requires SeasonsFit(seasons, col)
  {
    if seasons == [] then None
    else
      match ProbePeriods(seasons[0].periods, day)
      case Held => Some(RateIn(seasons[0], day, col))
      case Failed => None
      case Missed => NightRate(seasons[1..], day, col)
  }

  method PointsForNight(chart: ResortChart, day: int, col: nat) returns (r: Option<int>)
    requires SeasonsFit(chart.seasons, col)
    ensures r == NightRate(chart.seasons, day, col)
    ensures forall i: nat :: FirstHeldBy(chart.seasons, i, day) ==>
              r == Some(if day % 7 == 1 || day % 7 == 2 then chart.seasons[i].friSat[col]
                        else chart.seasons[i].sunThu[col])
  {
    hide FirstHeldBy;
    var seasons := chart.seasons;
    forall i: nat | FirstHeldBy(seasons, i, day)
      ensures i < |seasons|
      ensures NightRate(seasons, day, col) == Some(Charge(day, seasons[i].sunThu[col], seasons[i].friSat[col]))
    {
      NightCharged(seasons, i, day, col);
    }
    assert seasons[0..] == seasons;
    for i := 0 to |seasons|
      invariant NightRate(seasons, day, col) == NightRate(seasons[i..], day, col)
    {
      var periods := seasons[i].periods;
      assert seasons[i..][0] == seasons[i] && seasons[i..][1..] == seasons[i + 1..];
      assert periods[0..] == periods;
      for j := 0 to |periods|
        invariant ProbePeriods(periods, day) == ProbePeriods(periods[j..], day)
      {
        assert periods[j..][0] == periods[j] && periods[j..][1..] == periods[j + 1..];
        var ok := Contains(periods[j], day);
        if ok.None? { return None; }
        if ok.value {
          if IsWeekend(day) { return Some(seasons[i].friSat[col]); }
          return Some(seasons[i].sunThu[col]);
        }
      }
    }
    return None;
  }

  /** A well-formed period holds the day, both its ends included. */
  ghost predicate Holds(period: DateRange, day: int) {
    period.start.Some? && period.end.Some? && period.start.value <= day <= period.end.value
  }

  /** A well-formed period does not hold the day. */
  ghost predicate Misses(period: DateRange, day: int) {
    period.start.Some? && period.end.Some? && (day < period.start.value || period.end.value < day)
  }

  ghost predicate Covered(seasons: seq<Season>, day: int) {
    exists i, j :: 0 <= i < |seasons| && 0 <= j < |seasons[i].periods| && Holds(seasons[i].periods[j], day)
  }

  ghost predicate DatesParse(seasons: seq<Season>) {
    forall i, j :: 0 <= i < |seasons| && 0 <= j < |seasons[i].periods| ==>
      seasons[i].periods[j].start.Some? && seasons[i].periods[j].end.Some?
  }

  lemma {:induction false} ProbeExact(periods: seq<DateRange>, day: int)
    requires forall j :: 0 <= j < |periods| ==> Contains(periods[j], 0).Some?
    ensures ProbePeriods(periods, day) == Held <==>
                exists j :: 0 <= j < |periods| && Contains(periods[j], day) == Some(true)
    ensures ProbePeriods(periods, day) != Failed
  {
    if periods != [] {
      ProbeExact(periods[1..], day);
      if j :| 0 <= j < |periods[1..]| && Contains(periods[1..][j], day) == Some(true) {
        assert Contains(periods[j + 1], day) == Some(true);
      }
      if j :| 0 < j < |periods| && Contains(periods[j], day) == Some(true) {
        assert Contains(periods[1..][j - 1], day) == Some(true);
      }
    }
  }

  /** With well-formed dates, a night has a rate exactly when some season covers it. */
  lemma {:induction false} NightRateCovered(seasons: seq<Season>, day: int, col: nat)
    requires SeasonsFit(seasons, col) && DatesParse(seasons)
    ensures NightRate(seasons, day, col).Some? <==> Covered(seasons, day)
  {
    if seasons != [] {
      ProbeExact(seasons[0].periods, day);
      NightRateCovered(seasons[1..], day, col);
      if i, j :| 0 < i < |seasons| && 0 <= j < |seasons[i].periods|
                 && Contains(seasons[i].periods[j], day) == Some(true) {
        assert Contains(seasons[1..][i - 1].periods[j], day) == Some(true);
      }
      if i, j :| 0 <= i < |seasons[1..]| && 0 <= j < |seasons[1..][i].periods|
                 && Contains(seasons[1..][i].periods[j], day) == Some(true) {
        assert Contains(seasons[i + 1].periods[j], day) == Some(true);
      }
    }
  }

  /** Season i has the first period that holds the day: all before it are well-formed and do not. */
  ghost predicate FirstHeldBy(seasons: seq<Season>, i: int, day: int) {
    && 0 <= i < |seasons|
    && (forall k, j :: 0 <= k < i && 0 <= j < |seasons[k].periods| ==> Misses(seasons[k].periods[j], day))
    && exists j :: 0 <= j < |seasons[i].periods| && FirstHeldAt(seasons[i].periods, j, day)
  }

  ghost predicate FirstHeldAt(periods: seq<DateRange>, j: int, day: int) {
    0 <= j < |periods| && Holds(periods[j], day) && forall k :: 0 <= k < j ==> Misses(periods[k], day)
  }

  lemma {:induction false} ProbeFirst(periods: seq<DateRange>, j: nat, day: int)
    requires FirstHeldAt(periods, j, day)
    ensures ProbePeriods(periods, day) == Held
  {
    if j > 0 {
      assert Misses(periods[0], day);
      forall k | 0 <= k < j - 1 ensures Misses(periods[1..][k], day) {
        assert periods[1..][k] == periods[k + 1];
      }
      ProbeFirst(periods[1..], j - 1, day);
    }
  }

  lemma {:induction false} ProbeMissed(periods: seq<DateRange>, day: int)
    requires forall k :: 0 <= k < |periods| ==> Misses(periods[k], day)
    ensures ProbePeriods(periods, day) == Missed
  {
    if periods != [] {
      ProbeMissed(periods[1..], day);
    }
  }

  /** Every period before period j of season i is well-formed and does not hold the day. */
  ghost predicate MissedBefore(seasons: seq<Season>, i: int, j: int, day: int)
    requires 0 <= i < |seasons| && 0 <= j <= |seasons[i].periods|
  {
    && (forall m, k :: 0 <= m < i && 0 <= k < |seasons[m].periods| ==> Misses(seasons[m].periods[k], day))
    && forall k :: 0 <= k < j ==> Misses(seasons[i].periods[k], day)
  }

  lemma {:induction false} ProbeBroken(periods: seq<DateRange>, j: nat, day: int)
    requires j < |periods| && (periods[j].start.None? || periods[j].end.None?)
    requires forall k :: 0 <= k < j ==> Misses(periods[k], day)
    ensures ProbePeriods(periods, day) == Failed
  {
    if j > 0 {
      assert Misses(periods[0], day);
      forall k | 0 <= k < j - 1 ensures Misses(periods[1..][k], day) {
        assert periods[1..][k] == periods[k + 1];
      }
      ProbeBroken(periods[1..], j - 1, day);
    }
  }

  /** A period with a malformed date ends the lookup, when no period before it holds the night. */
  lemma {:induction false} NightUnparsed(seasons: seq<Season>, i: nat, j: nat, day: int, col: nat)
    requires SeasonsFit(seasons, col) && i < |seasons| && j < |seasons[i].periods|
    requires MissedBefore(seasons, i, j, day)
    requires seasons[i].periods[j].start.None? || seasons[i].periods[j].end.None?
    ensures NightRate(seasons, day, col) == None
  {
    if i == 0 {
      ProbeBroken(seasons[0].periods, j, day);
    } else {
      ProbeMissed(seasons[0].periods, day);
      forall m, k | 0 <= m < i - 1 && 0 <= k < |seasons[1..][m].periods|
        ensures Misses(seasons[1..][m].periods[k], day)
      {
        assert seasons[1..][m] == seasons[m + 1];
      }
      assert seasons[1..][i - 1] == seasons[i];
      NightUnparsed(seasons[1..], i - 1, j, day, col);
    }
  }

  /** A night is charged by the first period that holds it: on a Friday or a Saturday its season's Fri-Sat
      rate, on any other night its Sun-Thu rate. Day 0 is a Thursday. */
  lemma {:induction false} NightCharged(seasons: seq<Season>, i: nat, day: int, col: nat)
    requires SeasonsFit(seasons, col) && FirstHeldBy(seasons, i, day)
    ensures i < |seasons|
    ensures NightRate(seasons, day, col)
            == Some(if day % 7 == 1 || day % 7 == 2 then seasons[i].friSat[col] else seasons[i].sunThu[col])
  {
    if i == 0 {
      var j :| 0 <= j < |seasons[0].periods| && FirstHeldAt(seasons[0].periods, j, day);
      ProbeFirst(seasons[0].periods, j, day);
    } else {
      ProbeMissed(seasons[0].periods, day);
      forall k, j | 0 <= k < i - 1 && 0 <= j < |seasons[1..][k].periods|
        ensures Misses(seasons[1..][k].periods[j], day)
      {
        assert seasons[1..][k] == seasons[k + 1];
      }
      assert seasons[1..][i - 1] == seasons[i];
      NightCharged(seasons[1..], i - 1, day, col);
    }
  }

  // ----- What counts as an offered stay

  /** The points of a stay of n nights, if every night has a rate. */
  function StayTotal(seasons: seq<Season>, col: nat, checkIn: int, n: nat): Option<int>
    requires SeasonsFit(seasons, col)
  {
    if n == 0 then Some(0)
    else
      match (StayTotal(seasons, col, checkIn, n - 1), NightRate(seasons, checkIn + n - 1, col))
      case (Some(sofar), Some(rate)) => Some(sofar + rate)
      case _ => None
  }

  /** Any seven nights in a row that one season holds cost five of its Sun-Thu rates and two of its Fri-Sat
      rates, whichever night the week starts on. */
  lemma WeekCharged(seasons: seq<Season>, i: nat, day: int, col: nat)
    requires SeasonsFit(seasons, col) && i < |seasons|
    requires forall d :: day <= d < day + 7 ==> FirstHeldBy(seasons, i, d)
    ensures StayTotal(seasons, col, day, 7) == Some(5 * seasons[i].sunThu[col] + 2 * seasons[i].friSat[col])
  {
    hide FirstHeldBy, NightRate, RateIn;
    forall d | day <= d < day + 7
      ensures NightRate(seasons, d, col) == Some(Charge(d, seasons[i].sunThu[col], seasons[i].friSat[col]))
    {
      assert FirstHeldBy(seasons, i, d);
      NightCharged(seasons, i, d, col);
    }
    WeekSums(seasons, day, col, seasons[i].sunThu[col], seasons[i].friSat[col]);
  }

  function Charge(day: int, week: int, weekend: int): int {
    if day % 7 == 1 || day % 7 == 2 then weekend else week
  }

  lemma NextNight(seasons: seq<Season>, day: int, col: nat, n: nat, sofar: int, rate: int)
    requires SeasonsFit(seasons, col)
    requires StayTotal(seasons, col, day, n) == Some(sofar) && NightRate(seasons, day + n, col) == Some(rate)
    ensures StayTotal(seasons, col, day, n + 1) == Some(sofar + rate)
  {
    hide NightRate;
  }

  lemma WeekSums(seasons: seq<Season>, day: int, col: nat, week: int, weekend: int)
    requires SeasonsFit(seasons, col)
    requires forall d :: day <= d < day + 7 ==> NightRate(seasons, d, col) == Some(Charge(d, week, weekend))
    ensures StayTotal(seasons, col, day, 7) == Some(5 * week + 2 * weekend)
  {
    hide NightRate, Charge;
    var c := seq(7, k => Charge(day + k, week, weekend));
    assert StayTotal(seasons, col, day, 0) == Some(0);
    NextNight(seasons, day, col, 0, 0, c[0]);
    NextNight(seasons, day, col, 1, c[0], c[1]);
    NextNight(seasons, day, col, 2, c[0] + c[1], c[2]);
    NextNight(seasons, day, col, 3, c[0] + c[1] + c[2], c[3]);
    NextNight(seasons, day, col, 4, c[0] + c[1] + c[2] + c[3], c[4]);
    NextNight(seasons, day, col, 5, c[0] + c[1] + c[2] + c[3] + c[4], c[5]);
    NextNight(seasons, day, col, 6, c[0] + c[1] + c[2] + c[3] + c[4] + c[5], c[6]);
    SevenCharges(day, week, weekend);
  }

  lemma SevenCharges(day: int, week: int, weekend: int)
    ensures Charge(day, week, weekend) + Charge(day + 1, week, weekend) + Charge(day + 2, week, weekend)
            + Charge(day + 3, week, weekend) + Charge(day + 4, week, weekend) + Charge(day + 5, week, weekend)
            + Charge(day + 6, week, weekend) == 5 * week + 2 * weekend
  {
  }

  ghost predicate Affordable(seasons: seq<Season>, col: nat, checkIn: int, n: nat, budget: int)
    requires SeasonsFit(seasons, col)
  {
    StayTotal(seasons, col, checkIn, n).Some? && StayTotal(seasons, col, checkIn, n).value <= budget
  }

  /** A stay, by the positions of its chart and column. */
  datatype Hit = Hit(chart: int, col: int, checkIn: int, checkOut: int)

  function MinNights(p: Params): int {
    if p.minNights < 1 then 1 else p.minNights
  }

  ghost predicate ChartsFit(charts: seq<ResortChart>) {
    forall i :: 0 <= i < |charts| ==> RowsFit(charts[i])
  }

  predicate Searched(charts: seq<ResortChart>, p: Params, i: int, j: int) {
    && 0 <= i < |charts| && 0 <= j < |charts[i].columns|
    && charts[i].resortCode !in p.excludeResorts && charts[i].columns[j].roomType !in p.excludeRoomTypes
  }

  /** Within the window, of an allowed length, and affordable at every night along the way. */
  ghost predicate Offered(charts: seq<ResortChart>, p: Params, h: Hit)
    requires ChartsFit(charts)
  {
    && Searched(charts, p, h.chart, h.col)
    && p.windowStart <= h.checkIn < h.checkOut <= p.windowEnd
    && MinNights(p) <= h.checkOut - h.checkIn <= MAX_NIGHTS
    && forall n :: 1 <= n <= h.checkOut - h.checkIn ==>
      Affordable(charts[h.chart].seasons, h.col, h.checkIn, n, p.budget)
  }

  // ----- When the total alone decides

  /** Within the window, of an allowed length, and affordable as a whole. */
  ghost predicate InBudget(charts: seq<ResortChart>, p: Params, h: Hit)
    requires ChartsFit(charts)
  {
    && 0 <= h.chart < |charts| && charts[h.chart].resortCode !in p.excludeResorts
    && 0 <= h.col < |charts[h.chart].columns| && charts[h.chart].columns[h.col].roomType !in p.excludeRoomTypes
    && p.windowStart <= h.checkIn < h.checkOut <= p.windowEnd
    && Max(1, p.minNights) <= h.checkOut - h.checkIn <= 30
    && Affordable(charts[h.chart].seasons, h.col, h.checkIn, h.checkOut - h.checkIn, p.budget)
  }

  /** No night that follows a night with a rate has a negative one. */
  ghost predicate NeverDrops(seasons: seq<Season>, col: nat)
    requires SeasonsFit(seasons, col)
  {
    forall day, next :: next == day + 1 && NightRate(seasons, day, col).Some? && NightRate(seasons, next, col).Some? ==>
      NightRate(seasons, next, col).value >= 0
  }

  ghost predicate NoneDrops(charts: seq<ResortChart>)
    requires ChartsFit(charts)
  {
    forall i, j :: 0 <= i < |charts| && 0 <= j < |charts[i].columns| ==>
      RowsFit(charts[i]) && NeverDrops(charts[i].seasons, j)
  }

  /** A stay is never cheaper than its first nights. */
  lemma {:induction false} ShorterIsCheaper(seasons: seq<Season>, col: nat, checkIn: int, m: nat, n: nat)
    requires SeasonsFit(seasons, col) && NeverDrops(seasons, col)
    requires 1 <= m <= n && StayTotal(seasons, col, checkIn, n).Some?
    ensures StayTotal(seasons, col, checkIn, m).Some?
    ensures StayTotal(seasons, col, checkIn, m).value <= StayTotal(seasons, col, checkIn, n).value
  {
    if m < n {
      ShorterIsCheaper(seasons, col, checkIn, m, n - 1);
      assert StayTotal(seasons, col, checkIn, n - 1).Some?;
      assert NightRate(seasons, checkIn + n - 2, col).Some? && NightRate(seasons, checkIn + n - 1, col).Some?;
    }
  }

  /** Where no rate drops below zero from one night to the next, a stay is offered when its own total is
      within the budget. */
  lemma OfferedByTotal(charts: seq<ResortChart>, p: Params, h: Hit)
    requires ChartsFit(charts) && NoneDrops(charts)
    ensures Offered(charts, p, h) <==> InBudget(charts, p, h)
  {
    if InBudget(charts, p, h) {
      var seasons, n := charts[h.chart].seasons, h.checkOut - h.checkIn;
      forall m | 1 <= m <= n ensures Affordable(seasons, h.col, h.checkIn, m, p.budget) {
        ShorterIsCheaper(seasons, h.col, h.checkIn, m, n);
      }
    }
  }

  /** Two nights of which the second has a negative rate: affordable together, but not the first alone. */
  lemma DropIsMissed(charts: seq<ResortChart>, i: int, j: int, day: int) returns (p: Params, h: Hit)
    requires ChartsFit(charts) && 0 <= i < |charts| && 0 <= j < |charts[i].columns| && RowsFit(charts[i])
    requires NightRate(charts[i].seasons, day, j).Some? && NightRate(charts[i].seasons, day + 1, j).Some?
    requires NightRate(charts[i].seasons, day + 1, j).value < 0
    ensures InBudget(charts, p, h) && !Offered(charts, p, h)
  {
    var seasons := charts[i].seasons;
    var first, second := NightRate(seasons, day, j).value, NightRate(seasons, day + 1, j).value;
    p, h := Params(day, day + 2, first + second, 1, [], []), Hit(i, j, day, day + 2);
    assert StayTotal(seasons, j, day, 0) == Some(0);
    assert StayTotal(seasons, j, day, 1) == Some(first);
    assert StayTotal(seasons, j, day, 2) == Some(first + second);
    assert !Affordable(seasons, j, day, 1, p.budget);
  }

  /** The early break over budget loses nothing exactly when no night with a negative rate follows a night
      with a rate: then, and only then, every search finds every stay whose total is within its budget. */
  lemma TotalDecidesExactly(charts: seq<ResortChart>)
    requires ChartsFit(charts)
    ensures (forall p, h :: Offered(charts, p, h) <==> InBudget(charts, p, h)) <==> NoneDrops(charts)
  {
    if NoneDrops(charts) {
      forall p, h ensures Offered(charts, p, h) <==> InBudget(charts, p, h) {
        OfferedByTotal(charts, p, h);
      }
    } else {
      var i, j :| 0 <= i < |charts| && 0 <= j < |charts[i].columns|
                  && !(RowsFit(charts[i]) && NeverDrops(charts[i].seasons, j));
      assert RowsFit(charts[i]);
      var seasons := charts[i].seasons;
      var day, next :| next == day + 1 && NightRate(seasons, day, j).Some? && NightRate(seasons, next, j).Some?
                       && NightRate(seasons, next, j).value < 0;
      var p, h := DropIsMissed(charts, i, j, day);
      assert !(Offered(charts, p, h) <==> InBudget(charts, p, h));
    }
  }

  ghost predicate NonNegativeRates(chart: ResortChart) {
    forall i, j :: 0 <= i < |chart.seasons| ==>
      && (0 <= j < |chart.seasons[i].sunThu| ==> chart.seasons[i].sunThu[j] >= 0)
      && (0 <= j < |chart.seasons[i].friSat| ==> chart.seasons[i].friSat[j] >= 0)
  }

  lemma {:induction false} RateNonNegative(seasons: seq<Season>, day: int, col: nat)
    requires SeasonsFit(seasons, col)
    requires forall i :: 0 <= i < |seasons| ==> seasons[i].sunThu[col] >= 0 && seasons[i].friSat[col] >= 0
    ensures NightRate(seasons, day, col).Some? ==> NightRate(seasons, day, col).value >= 0
  {
    if seasons != [] {
      RateNonNegative(seasons[1..], day, col);
    }
  }

  /** In particular nothing is lost when no rate is negative. */
  lemma NonNegativeNeverDrops(charts: seq<ResortChart>)
    requires ChartsFit(charts) && forall i :: 0 <= i < |charts| ==> NonNegativeRates(charts[i])
    ensures NoneDrops(charts)
  {
    forall i, j | 0 <= i < |charts| && 0 <= j < |charts[i].columns|
      ensures RowsFit(charts[i]) && NeverDrops(charts[i].seasons, j)
    {
      assert RowsFit(charts[i]) && NonNegativeRates(charts[i]);
      forall day
        ensures NightRate(charts[i].seasons, day, j).Some? ==> NightRate(charts[i].seasons, day, j).value >= 0 {
        RateNonNegative(charts[i].seasons, day, j);
      }
    }
  }

  /** A night at -10 points brings a stay back within a budget that its first night exceeded, and the
      search does not look that far. */
  lemma NegativeRateIsMissed() returns (charts: seq<ResortChart>, p: Params, h: Hit)
    ensures ChartsFit(charts) && InBudget(charts, p, h) && !Offered(charts, p, h)
  {
    var high := Season([DateRange(Some(3), Some(3))], [10], [10]);
    var low := Season([DateRange(Some(4), Some(4))], [-10], [-10]);
    charts := [ResortChart("", "", [Column("", "")], [high, low])];
    p, h := Params(3, 5, 5, 1, [], []), Hit(0, 0, 3, 5);
    var seasons := charts[0].seasons;
    assert seasons[1..] == [low] && [low][1..] == [];
    assert high.periods[1..] == [] && low.periods[1..] == [];
    assert NightRate(seasons, 3, 0) == Some(10);
    assert NightRate([low], 4, 0) == Some(-10) && NightRate(seasons, 4, 0) == Some(-10);
    assert StayTotal(seasons, 0, 3, 0) == Some(0);
    assert StayTotal(seasons, 0, 3, 1) == Some(10);
    assert StayTotal(seasons, 0, 3, 2) == Some(0);
    assert !Affordable(seasons, 0, 3, 1, 5);
  }

  // ----- The reference search: every pair of dates, one by one

  ghost function HitsFrom(charts: seq<ResortChart>, p: Params, i: int, j: int, checkIn: int, checkOut: int): seq<Hit>
    requires ChartsFit(charts)
    decreases p.windowEnd - checkOut
  {
    if checkOut > p.windowEnd then []
    else
      var h := Hit(i, j, checkIn, checkOut);
      (if Offered(charts, p, h) then [h] else []) + HitsFrom(charts, p, i, j, checkIn, checkOut + 1)
  }

  ghost function HitsOfColumn(charts: seq<ResortChart>, p: Params, i: int, j: int, checkIn: int): seq<Hit>
    requires ChartsFit(charts)
    decreases p.windowEnd - checkIn
  {
    if checkIn >= p.windowEnd then []
    else HitsFrom(charts, p, i, j, checkIn, checkIn + 1) + HitsOfColumn(charts, p, i, j, checkIn + 1)
  }

  ghost function HitsOfChart(charts: seq<ResortChart>, p: Params, i: int, j: int): seq<Hit>
    requires ChartsFit(charts) && 0 <= i < |charts|
    decreases |charts[i].columns| - j
  {
    if j >= |charts[i].columns| then []
    else HitsOfColumn(charts, p, i, j, p.windowStart) + HitsOfChart(charts, p, i, j + 1)
  }

  ghost function Hits(charts: seq<ResortChart>, p: Params, i: nat): seq<Hit>
    requires ChartsFit(charts)
    decreases |charts| - i
  {
    if i >= |charts| then [] else HitsOfChart(charts, p, i, 0) + Hits(charts, p, i + 1)
  }

  ghost predicate NoRepeats(s: seq<Hit>) {
    forall i, j :: 0 <= i < j < |s| ==> s[i] != s[j]
  }

  lemma NoRepeatsConcat(a: seq<Hit>, b: seq<Hit>)
    requires NoRepeats(a) && NoRepeats(b) && forall h :: h in a ==> h !in b
    ensures NoRepeats(a + b)
  {
    forall i, j | 0 <= i < |a| <= j < |a + b| ensures (a + b)[i] != (a + b)[j] {
      assert a[i] in a && (a + b)[j] == b[j - |a|] && b[j - |a|] in b;
    }
  }

  lemma {:induction false} HitsFromExact(charts: seq<ResortChart>, p: Params, i: int, j: int, checkIn: int,
                                          checkOut: int)
    requires ChartsFit(charts)
    ensures var hs := HitsFrom(charts, p, i, j, checkIn, checkOut);
            NoRepeats(hs) && forall h :: h in hs <==>
              Offered(charts, p, h) && h.chart == i && h.col == j && h.checkIn == checkIn && h.checkOut >= checkOut
    decreases p.windowEnd - checkOut
  {
    if checkOut <= p.windowEnd {
      HitsFromExact(charts, p, i, j, checkIn, checkOut + 1);
      var h := Hit(i, j, checkIn, checkOut);
      NoRepeatsConcat(if Offered(charts, p, h) then [h] else [], HitsFrom(charts, p, i, j, checkIn, checkOut + 1));
    }
  }

  lemma {:induction false} HitsOfColumnExact(charts: seq<ResortChart>, p: Params, i: int, j: int, checkIn: int)
    requires ChartsFit(charts)
    ensures var hs := HitsOfColumn(charts, p, i, j, checkIn);
            NoRepeats(hs) && forall h :: h in hs <==>
              Offered(charts, p, h) && h.chart == i && h.col == j && h.checkIn >= checkIn
    decreases p.windowEnd - checkIn
  {
    if checkIn < p.windowEnd {
      HitsFromExact(charts, p, i, j, checkIn, checkIn + 1);
      HitsOfColumnExact(charts, p, i, j, checkIn + 1);
      NoRepeatsConcat(HitsFrom(charts, p, i, j, checkIn, checkIn + 1), HitsOfColumn(charts, p, i, j, checkIn + 1));
    }
  }

  lemma {:induction false} HitsOfChartExact(charts: seq<ResortChart>, p: Params, i: int, j: int)
    requires ChartsFit(charts) && 0 <= i < |charts| && j >= 0
    ensures var hs := HitsOfChart(charts, p, i, j);
            NoRepeats(hs) && forall h :: h in hs <==> Offered(charts, p, h) && h.chart == i && h.col >= j
    decreases |charts[i].columns| - j
  {
    if j < |charts[i].columns| {
      HitsOfColumnExact(charts, p, i, j, p.windowStart);
      HitsOfChartExact(charts, p, i, j + 1);
      NoRepeatsConcat(HitsOfColumn(charts, p, i, j, p.windowStart), HitsOfChart(charts, p, i, j + 1));
    }
  }

  lemma HitsOfChartAll(charts: seq<ResortChart>, p: Params, i: int)
    requires ChartsFit(charts) && 0 <= i < |charts|
    ensures NoRepeats(HitsOfChart(charts, p, i, 0))
    ensures forall h :: h in HitsOfChart(charts, p, i, 0) <==> Offered(charts, p, h) && h.chart == i
  {
    HitsOfChartExact(charts, p, i, 0);
  }

  ghost predicate AllFrom(charts: seq<ResortChart>, p: Params, i: int, hits: seq<Hit>)
    requires ChartsFit(charts)
  {
    NoRepeats(hits) && forall h :: h in hits <==> Offered(charts, p, h) && h.chart >= i
  }

  lemma NoChartsLeft(charts: seq<ResortChart>, p: Params, i: int)
    requires ChartsFit(charts) && i >= |charts|
    ensures AllFrom(charts, p, i, [])
  {
  }

  lemma HitsTogether(charts: seq<ResortChart>, p: Params, i: int, a: seq<Hit>, b: seq<Hit>)
    requires ChartsFit(charts) && NoRepeats(a) && AllFrom(charts, p, i + 1, b)
    requires forall h :: h in a <==> Offered(charts, p, h) && h.chart == i
    ensures AllFrom(charts, p, i, a + b)
  {
    NoRepeatsConcat(a, b);
  }

  lemma {:induction false} HitsFromChart(charts: seq<ResortChart>, p: Params, i: nat)
    requires ChartsFit(charts)
    ensures AllFrom(charts, p, i, Hits(charts, p, i))
    decreases |charts| - i
  {
    hide AllFrom, Offered, NoRepeats, HitsOfChart;
    if i < |charts| {
      HitsOfChartAll(charts, p, i);
      HitsFromChart(charts, p, i + 1);
      HitsTogether(charts, p, i, HitsOfChart(charts, p, i, 0), Hits(charts, p, i + 1));
    } else {
      NoChartsLeft(charts, p, i);
    }
  }

  /** The reference search yields each offered stay exactly once, and nothing else. */
  lemma HitsExact(charts: seq<ResortChart>, p: Params, i: nat)
    requires ChartsFit(charts)
    ensures NoRepeats(Hits(charts, p, i))
    ensures forall h :: h in Hits(charts, p, i) <==> Offered(charts, p, h) && h.chart >= i
  {
    hide Hits;
    HitsFromChart(charts, p, i);
  }

  // ----- What is reported for a hit

  /** r tells the stay h: where and when it is, how long, and what all its nights come to. */
  ghost predicate Tells(charts: seq<ResortChart>, r: StayResult, h: Hit)
    requires 0 <= h.chart < |charts| && 0 <= h.col < |charts[h.chart].columns|
    requires SeasonsFit(charts[h.chart].seasons, h.col) && h.checkIn <= h.checkOut
  {
    var c := charts[h.chart];
    && r.resort == c.resortName && r.roomType == c.columns[h.col].roomType && r.view == c.columns[h.col].view
    && r.checkIn == h.checkIn && r.checkOut == h.checkOut && r.nights == h.checkOut - h.checkIn
    && StayTotal(c.seasons, h.col, h.checkIn, h.checkOut - h.checkIn) == Some(r.points)
  }

  /** The results are the reports of the hits, in order. */
  ghost predicate Reports(charts: seq<ResortChart>, p: Params, hits: seq<Hit>, results: seq<StayResult>)
    requires ChartsFit(charts)
  {
    && |results| == |hits|
    && forall k :: 0 <= k < |hits| ==> Offered(charts, p, hits[k]) && Tells(charts, results[k], hits[k])
  }

  lemma ReportsConcat(charts: seq<ResortChart>, p: Params, a: seq<Hit>, b: seq<Hit>,
                        r: seq<StayResult>, s: seq<StayResult>)
    requires ChartsFit(charts) && Reports(charts, p, a, r) && Reports(charts, p, b, s)
    ensures Reports(charts, p, a + b, r + s)
  {
  }

  lemma NothingReported(charts: seq<ResortChart>, p: Params)
    requires ChartsFit(charts)
    ensures Reports(charts, p, [], [])
  {
  }

  // ----- The search with its early breaks

  lemma {:induction false} NoneFrom(charts: seq<ResortChart>, p: Params, i: int, j: int, checkIn: int, checkOut: int)
    requires ChartsFit(charts)
    requires forall out :: out >= checkOut ==> !Offered(charts, p, Hit(i, j, checkIn, out))
    ensures HitsFrom(charts, p, i, j, checkIn, checkOut) == []
    decreases p.windowEnd - checkOut
  {
    if checkOut <= p.windowEnd {
      NoneFrom(charts, p, i, j, checkIn, checkOut + 1);
    }
  }

  lemma NoneAfterBreak(charts: seq<ResortChart>, p: Params, i: nat, j: nat, checkIn: int, checkOut: int)
    requires ChartsFit(charts) && Searched(charts, p, i, j) && checkIn < checkOut
    requires SeasonsFit(charts[i].seasons, j)
    requires !Affordable(charts[i].seasons, j, checkIn, checkOut - checkIn, p.budget) || checkOut - checkIn > MAX_NIGHTS
    ensures HitsFrom(charts, p, i, j, checkIn, checkOut) == []
  {
    NoneFrom(charts, p, i, j, checkIn, checkOut);
  }

  /** What the inner loop's breaks come to: from a check-out at which a stay has a night without a rate, is
      over budget or is too long, no longer stay has all its nights covered, an allowed length and a total
      within the budget. */
  lemma BreakLosesNothing(charts: seq<ResortChart>, p: Params, i: nat, j: nat, checkIn: int, checkOut: int, out: int)
    requires ChartsFit(charts) && Searched(charts, p, i, j) && checkIn < checkOut <= out
    requires SeasonsFit(charts[i].seasons, j) && NeverDrops(charts[i].seasons, j)
    requires !Affordable(charts[i].seasons, j, checkIn, checkOut - checkIn, p.budget) || checkOut - checkIn > MAX_NIGHTS
    ensures !InBudget(charts, p, Hit(i, j, checkIn, out))
  {
    if StayTotal(charts[i].seasons, j, checkIn, out - checkIn).Some? {
      ShorterIsCheaper(charts[i].seasons, j, checkIn, checkOut - checkIn, out - checkIn);
    }
  }

  /** One affordable night further: the stay is a hit when it is long enough, and is reported as one. */
  lemma NightFurther(charts: seq<ResortChart>, p: Params, i: nat, j: nat, checkIn: int, checkOut: int)
    requires ChartsFit(charts) && Searched(charts, p, i, j)
    requires p.windowStart <= checkIn < checkOut <= p.windowEnd && checkOut - checkIn <= MAX_NIGHTS
    requires SeasonsFit(charts[i].seasons, j)
    requires forall n :: 1 <= n <= checkOut - checkIn ==> Affordable(charts[i].seasons, j, checkIn, n, p.budget)
    ensures var h, rest := Hit(i, j, checkIn, checkOut), HitsFrom(charts, p, i, j, checkIn, checkOut + 1);
            && (Offered(charts, p, h) <==> checkOut - checkIn >= MinNights(p))
            && HitsFrom(charts, p, i, j, checkIn, checkOut) == if Offered(charts, p, h) then [h] + rest else rest
  {
    var rest := HitsFrom(charts, p, i, j, checkIn, checkOut + 1);
    assert [] + rest == rest;
  }

  lemma ReportsOneMore(charts: seq<ResortChart>, p: Params, hits: seq<Hit>, results: seq<StayResult>, h: Hit,
                         r: StayResult, rest: seq<Hit>)
    requires ChartsFit(charts) && Reports(charts, p, hits, results) && Offered(charts, p, h) && Tells(charts, r, h)
    ensures Reports(charts, p, hits + [h], results + [r])
    ensures (hits + [h]) + rest == hits + ([h] + rest)
  {
  }

  /** All stays from one check-in date: extends night by night until a night has no rate, the total
      passes the budget, or the stay reaches the longest allowed. */
  method StaysFrom(charts: seq<ResortChart>, p: Params, i: nat, j: nat, checkIn: int) returns (results: seq<StayResult>)
    requires ChartsFit(charts) && Searched(charts, p, i, j) && p.windowStart <= checkIn < p.windowEnd
    ensures Reports(charts, p, HitsFrom(charts, p, i, j, checkIn, checkIn + 1), results)
  {
    hide Reports, Offered;
    NothingReported(charts, p);
    var chart, minNights := charts[i], MinNights(p);
    var total, checkOut := 0, checkIn + 1;
    results := [];
    ghost var hits: seq<Hit> := [];
    ghost var all := HitsFrom(charts, p, i, j, checkIn, checkIn + 1);
    assert RowsFit(chart);
    assert [] + all == all;
    while checkOut <= p.windowEnd
      invariant checkIn < checkOut && checkOut - checkIn <= MAX_NIGHTS
      invariant StayTotal(chart.seasons, j, checkIn, checkOut - checkIn - 1) == Some(total)
      invariant forall n :: 1 <= n < checkOut - checkIn ==> Affordable(chart.seasons, j, checkIn, n, p.budget)
      invariant Reports(charts, p, hits, results)
      invariant all == hits + HitsFrom(charts, p, i, j, checkIn, checkOut)
      decreases p.windowEnd - checkOut
    {
      var night := checkOut - 1;
      var pts := PointsForNight(chart, night, j);
      if pts.None? || total + pts.value > p.budget {
        NoneAfterBreak(charts, p, i, j, checkIn, checkOut);
        assert hits + [] == hits;
        return;
      }
      total := total + pts.value;
      var nights := checkOut - checkIn;
      assert Affordable(chart.seasons, j, checkIn, nights, p.budget);
      NightFurther(charts, p, i, j, checkIn, checkOut);
      if nights >= minNights {
        ghost var h := Hit(i, j, checkIn, checkOut);
        var result := StayResult(chart.resortName, chart.columns[j].roomType, chart.columns[j].view,
                                 checkIn, checkOut, nights, total);
        ReportsOneMore(charts, p, hits, results, h, result, HitsFrom(charts, p, i, j, checkIn, checkOut + 1));
        results := results + [result];
        hits := hits + [h];
      }
      if nights >= MAX_NIGHTS {
        NoneAfterBreak(charts, p, i, j, checkIn, checkOut + 1);
        assert hits + [] == hits;
        return;
      }
      checkOut := checkOut + 1;
    }
    assert hits + [] == hits;
  }

  method StaysOfColumn(charts: seq<ResortChart>, p: Params, i: nat, j: nat) returns (results: seq<StayResult>)
    requires ChartsFit(charts) && Searched(charts, p, i, j)
    ensures Reports(charts, p, HitsOfColumn(charts, p, i, j, p.windowStart), results)
  {
    hide Reports, Offered, HitsFrom, Searched, ChartsFit;
    NothingReported(charts, p);
    results := [];
    ghost var hits: seq<Hit> := [];
    var checkIn := p.windowStart;
    assert [] + HitsOfColumn(charts, p, i, j, checkIn) == HitsOfColumn(charts, p, i, j, checkIn);
    while checkIn < p.windowEnd
      invariant p.windowStart <= checkIn
      invariant Reports(charts, p, hits, results)
      invariant HitsOfColumn(charts, p, i, j, p.windowStart) == hits + HitsOfColumn(charts, p, i, j, checkIn)
      decreases p.windowEnd - checkIn
    {
      var found := StaysFrom(charts, p, i, j, checkIn);
      ghost var now := HitsFrom(charts, p, i, j, checkIn, checkIn + 1);
      ReportsConcat(charts, p, hits, now, results, found);
      assert (hits + now) + HitsOfColumn(charts, p, i, j, checkIn + 1) == hits + HitsOfColumn(charts, p, i, j, checkIn);
      hits, results := hits + now, results + found;
      checkIn := checkIn + 1;
    }
    assert hits + [] == hits;
  }

  lemma {:induction false} ExcludedHasNoHits(charts: seq<ResortChart>, p: Params, i: int, j: int, checkIn: int)
    requires ChartsFit(charts) && !Searched(charts, p, i, j)
    ensures HitsOfColumn(charts, p, i, j, checkIn) == []
    decreases p.windowEnd - checkIn
  {
    if checkIn < p.windowEnd {
      NoneFrom(charts, p, i, j, checkIn, checkIn + 1);
      ExcludedHasNoHits(charts, p, i, j, checkIn + 1);
    }
  }

  method StaysOfChart(charts: seq<ResortChart>, p: Params, i: nat) returns (results: seq<StayResult>)
    requires ChartsFit(charts) && i < |charts|
    ensures Reports(charts, p, HitsOfChart(charts, p, i, 0), results)
  {
    hide Reports, Offered, HitsOfColumn;
    NothingReported(charts, p);
    results := [];
    ghost var hits: seq<Hit> := [];
    assert [] + HitsOfChart(charts, p, i, 0) == HitsOfChart(charts, p, i, 0);
    for j := 0 to |charts[i].columns|
      invariant Reports(charts, p, hits, results)
      invariant HitsOfChart(charts, p, i, 0) == hits + HitsOfChart(charts, p, i, j)
    {
      ghost var now := HitsOfColumn(charts, p, i, j, p.windowStart);
      assert (hits + now) + HitsOfChart(charts, p, i, j + 1) == hits + HitsOfChart(charts, p, i, j);
      if charts[i].resortCode in p.excludeResorts || charts[i].columns[j].roomType in p.excludeRoomTypes {
        ExcludedHasNoHits(charts, p, i, j, p.windowStart);
        assert hits + [] == hits;
        continue;
      }
      var found := StaysOfColumn(charts, p, i, j);
      ReportsConcat(charts, p, hits, now, results, found);
      hits, results := hits + now, results + found;
    }
    assert hits + [] == hits;
  }

  function ResultOrder(r: StayResult): (int, int) {
    (r.points, r.checkIn)
  }

  /** The results are, up to order, the reports of the reference search, which yields each offered stay
      exactly once; they are ordered by points, then check-in. */
  method Search(charts: seq<ResortChart>, p: Params) returns (results: seq<StayResult>, ghost unsorted: seq<StayResult>)
    requires ChartsFit(charts)
    ensures Reports(charts, p, Hits(charts, p, 0), unsorted)
    ensures multiset(results) == multiset(unsorted)
    ensures forall a, b :: 0 <= a < b < |results| ==>
              results[a].points < results[b].points
              || (results[a].points == results[b].points && results[a].checkIn <= results[b].checkIn)
  {
    hide Reports, Offered, HitsOfChart, ChartsFit;
    NothingReported(charts, p);
    var found: seq<StayResult> := [];
    ghost var hits: seq<Hit> := [];
    assert [] + Hits(charts, p, 0) == Hits(charts, p, 0);
    for i := 0 to |charts|
      invariant Reports(charts, p, hits, found)
      invariant Hits(charts, p, 0) == hits + Hits(charts, p, i)
    {
      ghost var now := HitsOfChart(charts, p, i, 0);
      assert (hits + now) + Hits(charts, p, i + 1) == hits + Hits(charts, p, i);
      var more := StaysOfChart(charts, p, i);
      ReportsConcat(charts, p, hits, now, found, more);
      hits, found := hits + now, found + more;
    }
    assert hits + [] == hits;
    unsorted := found;
    results := Sorting.SortSlice(ResultOrder, found);
    forall a, b | 0 <= a < b < |results|
      ensures results[a].points < results[b].points
              || (results[a].points == results[b].points && results[a].checkIn <= results[b].checkIn)
    {
      assert !Sorting.Less(ResultOrder(results[b]), ResultOrder(results[a]));
    }
  }
}
