/** The ledger's rows and values. */
module Types {

  datatype Option<+T> = None | Some(value: T)

  datatype Result<+T, +E> = Ok(value: T) | Err(error: E)

  function Min(a: int, b: int): int {
    if a < b then a else b
  }

  function Max(a: int, b: int): int {
    if a < b then b else a
  }

  predicate IsDigit(c: char) {
    '0' <= c <= '9'
  }

  /** A calendar date: its day number, and the year and month it falls in. */
  datatype Date = Date(day: int, year: int, month: int)

  /** The use year a date falls in, for a contract whose use year starts in startMonth. */
  function UseYearForDate(date: Date, startMonth: int): int {
    if date.month >= startMonth then date.year else date.year - 1
  }

  /** The use year is the one whose twelve months, from its start month on, hold the date's month. */
  lemma UseYearHoldsDate(date: Date, startMonth: int, useYear: int)
    requires 1 <= date.month <= 12 && 1 <= startMonth <= 12
    ensures UseYearForDate(date, startMonth) == useYear <==>
              12 * useYear + startMonth <= 12 * date.year + date.month < 12 * (useYear + 1) + startMonth
  {
  }

  datatype Contract = Contract(
    id: int, name: string, annualPoints: int, useYearMonth: int,
    termYears: int, purchasePrice: int, closingCosts: int)

  /** The portfolio-wide use-year month: the first contract's, or January. */
  function UseYearStartMonth(contracts: seq<Contract>): int {
    if |contracts| > 0 then contracts[0].useYearMonth else 1
  }

  /** Unset is the empty disposition that rows read back from the ledger carry. */
  datatype Disposition = Unset | Banked | Current | Borrowed

  function RankOf(d: Disposition): int {
    match d
    case Banked => 0
    case Current => 1
    case Borrowed => 2
    case Unset => 3
  }

  /** The ledger tag written for a draw. */
  function DispositionTag(d: Disposition): string {
    match d
    case Banked => "Bank"
    case Borrowed => "Borrow"
    case _ => ""
  }

  datatype LotKey = LotKey(contract: int, year: int)

  datatype Lot = Lot(key: LotKey, points: int)

  datatype Draw = Draw(key: LotKey, disposition: Disposition, points: int)

  datatype Kind = Allocation | Usage | Bonus | SingleUse | Adjustment

  datatype Entry = Entry(
    id: int, useYear: int, date: Date, desc: string, kind: Kind,
    allotted: int, used: int, tag: string, contract: Option<int>)

  datatype Trip = Trip(
    id: int, name: string, startDate: Date, endDate: Date,
    minNights: int, budgetOverride: Option<int>)

  /** A trip_stay row. */
  datatype StayRow = StayRow(
    id: int, trip: int, resort: string, roomType: string,
    checkIn: Date, checkOut: Date, nights: int, points: int)

  function EntryID(e: Entry): int { e.id }

  function StayID(s: StayRow): int { s.id }

  function TripID(t: Trip): int { t.id }

  /** A trip_stay_entry row. */
  datatype Link = Link(stay: int, entry: int)

  /** A stay as ListStays returns it: the row, and what the links say about it. */
  datatype TripStay = TripStay(row: StayRow, entryIDs: seq<int>, entryPoints: int) {
    predicate Booked() {
      |entryIDs| > 0
    }

    predicate PartiallyBooked() {
      Booked() && entryPoints < row.points
    }
  }

  /** The database. Tables are in id order; next* are the identity counters. */
  datatype Db = Db(
    contracts: seq<Contract>, trips: seq<Trip>, stays: seq<StayRow>,
    entries: seq<Entry>, links: set<Link>,
    nextTrip: int, nextStay: int, nextEntry: int)
}
