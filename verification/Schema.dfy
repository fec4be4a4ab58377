/** What the schema and the booking code keep true of the tables. */
module Schema {
  import opened Types
  import opened Allocation
  import opened Accounting
  import opened Booking
  import Rows
  import Sorting

  ghost predicate KeysFit(db: Db) {
    && DistinctContracts(db.contracts)
    && (forall i :: 0 <= i < |db.trips| ==> db.trips[i].id < db.nextTrip)
    && Rows.Ascending(TripID, db.trips)
    && (forall i :: 0 <= i < |db.stays| ==> db.stays[i].id < db.nextStay)
    && Rows.Ascending(StayID, db.stays)
    && (forall i :: 0 <= i < |db.entries| ==> db.entries[i].id < db.nextEntry)
    && Rows.Ascending(EntryID, db.entries)
  }

  ghost predicate HasTrip(db: Db, id: int) {
    exists i :: 0 <= i < |db.trips| && db.trips[i].id == id
  }

  ghost predicate HasStay(db: Db, id: int) {
    exists i :: 0 <= i < |db.stays| && db.stays[i].id == id
  }

  ghost predicate HasUsage(entries: seq<Entry>, id: int) {
    exists i :: 0 <= i < |entries| && entries[i].id == id && entries[i].kind == Usage && entries[i].used > 0
  }

  ghost predicate StaysFit(db: Db) {
    forall i :: 0 <= i < |db.stays| ==> db.stays[i].points > 0 && HasTrip(db, db.stays[i].trip)
  }

  /** Every link names a live stay and a live usage entry, and no entry is linked twice. */
  ghost predicate LinksFit(db: Db) {
    && (forall l :: l in db.links ==> HasStay(db, l.stay) && HasUsage(db.entries, l.entry))
    && (forall l, m :: l in db.links && m in db.links && l.entry == m.entry ==> l == m)
  }

  /** No stay is funded beyond its points. */
  ghost predicate NotOverfunded(db: Db) {
    forall i :: 0 <= i < |db.stays| ==> View(db, db.stays[i]).entryPoints <= db.stays[i].points
  }

  ghost predicate Consistent(db: Db) {
    KeysFit(db) && StaysFit(db) && LinksFit(db) && NotOverfunded(db)
  }

  lemma ConsistentIsBounded(db: Db)
    requires KeysFit(db) && LinksFit(db)
    ensures Bounded(db)
  {
    forall l | l in db.links ensures l.entry < db.nextEntry {
      assert HasUsage(db.entries, l.entry);
    }
  }

  // ----- ListStays

  lemma {:induction false} StaysOfTripMembers(stays: seq<StayRow>, trip: int)
    ensures forall s :: s in StaysOfTrip(stays, trip) <==> s in stays && s.trip == trip
  {
    if stays != [] {
      StaysOfTripMembers(stays[..|stays| - 1], trip);
      assert stays == stays[..|stays| - 1] + [stays[|stays| - 1]];
    }
  }

  lemma {:induction false} StaysOfTripExact(stays: seq<StayRow>, trip: int)
    requires Rows.Ascending(StayID, stays)
    ensures forall s :: s in StaysOfTrip(stays, trip) <==> s in stays && s.trip == trip
    ensures Sorting.DistinctKeys(StayOrder, StaysOfTrip(stays, trip))
  {
    StaysOfTripMembers(stays, trip);
    if stays != [] {
      var front, last := stays[..|stays| - 1], stays[|stays| - 1];
      StaysOfTripExact(front, trip);
      var rows := StaysOfTrip(front, trip);
      forall i | 0 <= i < |rows| ensures StayOrder(rows[i]) != StayOrder(last) {
        assert rows[i] in rows;
        var j :| 0 <= j < |front| && front[j] == rows[i];
        assert stays[j] == rows[i] && StayID(stays[j]) < StayID(last);
      }
    }
  }

  /** The trip's rows, each once, in strict (check-in, id) order. */
  lemma TripRowsExact(db: Db, trip: int)
    requires KeysFit(db)
    ensures forall s :: s in TripRows(db, trip) <==> s in db.stays && s.trip == trip
    ensures var rows := TripRows(db, trip);
            forall i, j :: 0 <= i < j < |rows| ==>
              && rows[i].id != rows[j].id
              && (rows[i].checkIn.day < rows[j].checkIn.day
                  || (rows[i].checkIn.day == rows[j].checkIn.day && rows[i].id < rows[j].id))
  {
    var rows, own := TripRows(db, trip), StaysOfTrip(db.stays, trip);
    StaysOfTripExact(db.stays, trip);
    Sorting.PermutationIsStrict(StayOrder, own, rows);
    forall s ensures s in rows <==> s in own {
      assert s in multiset(rows) <==> s in multiset(own);
    }
    forall i, j | 0 <= i < j < |rows|
      ensures rows[i].id != rows[j].id
      ensures rows[i].checkIn.day < rows[j].checkIn.day
              || (rows[i].checkIn.day == rows[j].checkIn.day && rows[i].id < rows[j].id)
    {
      assert rows[i] in own && rows[j] in own;
      assert Sorting.Less(StayOrder(rows[i]), StayOrder(rows[j]));
      var a :| 0 <= a < |db.stays| && db.stays[a] == rows[i];
      var b :| 0 <= b < |db.stays| && db.stays[b] == rows[j];
      assert a != b;
    }
  }

  lemma ListStaysExact(db: Db, trip: int)
    requires KeysFit(db) && StaysFit(db)
    ensures var stays := ListStays(db, trip);
            && DistinctStays(stays) && UpToDate(db, stays) && Payable(stays)
            && RowsOf(stays) == TripRows(db, trip)
            && forall i :: 0 <= i < |stays| ==> stays[i].row in db.stays && stays[i].row.trip == trip
  {
    var rows := TripRows(db, trip);
    TripRowsExact(db, trip);
    forall i | 0 <= i < |rows| ensures rows[i] in db.stays && rows[i].trip == trip && rows[i].points > 0 {
      assert rows[i] in rows;
    }
  }

  // ----- Booking, at the level of the database

  lemma FindTripExact(trips: seq<Trip>, id: int)
    ensures FindTrip(trips, id).Some? <==> exists i :: 0 <= i < |trips| && trips[i].id == id
    ensures FindTrip(trips, id).Some? ==> FindTrip(trips, id).value.id == id && FindTrip(trips, id).value in trips
  {
    if trips != [] && trips[0].id != id {
      FindTripExact(trips[1..], id);
      if i :| 0 <= i < |trips| && trips[i].id == id {
        assert trips[1..][i - 1].id == id;
      }
    }
  }

  /** Booking a trip in one transaction is booking its stays one after another, each against what the
      tables then hold: the same rows, or the same refusal. */
  lemma BookTripIsSerial(db: Db, trip: int)
    requires Consistent(db) && FindTrip(db.trips, trip).Some?
    ensures match BookSerially(db, FindTrip(db.trips, trip).value, TripRows(db, trip))
            case None => BookOnce(db, trip) == Err(InsufficientPoints)
            case Some(after) => BookOnce(db, trip) == Ok(after)
  {
    ConsistentIsBounded(db);
    ListStaysExact(db, trip);
    SnapshotTracks(db);
    hide Consistent, ListStays, TripRows, Tracks, Bounded, UpToDate, PoolOf, UnattributedUsage, View;
    PlanIsSerial(db, FindTrip(db.trips, trip).value, PoolOf(db), UnattributedUsage(db.entries), ListStays(db, trip));
  }

  /** The plan of a successful booking. */
  function TripPlan(db: Db, trip: int): seq<Funded>
    requires BookOnce(db, trip).Ok?
  {
    Plan(PoolOf(db), UnattributedUsage(db.entries), ListStays(db, trip)).value
  }

  /** The plan funds, in full, each unbooked stay of the trip as it stands, and no other. */
  ghost predicate FundsTrip(db: Db, trip: int, plan: seq<Funded>) {
    && DistinctPlan(plan)
    && (forall j :: 0 <= j < |plan| ==>
      && Covers(plan[j]) && plan[j].stay == View(db, plan[j].stay.row) && !plan[j].stay.Booked()
      && plan[j].stay.row in db.stays && plan[j].stay.row.trip == trip)
    && (forall row :: row in db.stays && row.trip == trip && !View(db, row).Booked() ==>
      exists j :: 0 <= j < |plan| && plan[j].stay.row == row)
  }

  lemma UnbookedOfTrip(db: Db, trip: int, stays: seq<TripStay>)
    requires KeysFit(db) && StaysFit(db) && stays == ListStays(db, trip)
    ensures DistinctStays(Unbooked(stays))
    ensures forall st :: st in Unbooked(stays) ==>
              st == View(db, st.row) && !st.Booked() && st.row in db.stays && st.row.trip == trip
    ensures forall row :: row in db.stays && row.trip == trip && !View(db, row).Booked() ==>
              View(db, row) in Unbooked(stays)
  {
    ListStaysExact(db, trip);
    TripRowsExact(db, trip);
    UnbookedExact(stays);
    forall st | st in stays ensures st == View(db, st.row) && st.row in db.stays && st.row.trip == trip {
      var i :| 0 <= i < |stays| && stays[i] == st;
    }
    forall row | row in db.stays && row.trip == trip ensures View(db, row) in stays {
      assert row in TripRows(db, trip);
      var i :| 0 <= i < |TripRows(db, trip)| && TripRows(db, trip)[i] == row;
      assert stays[i] == View(db, row);
    }
  }

  lemma TripPlanFunds(db: Db, trip: int, unbooked: seq<TripStay>, plan: seq<Funded>)
    requires KeysFit(db) && StaysFit(db) && unbooked == Unbooked(ListStays(db, trip))
    requires |plan| == |unbooked|
    requires forall j :: 0 <= j < |plan| ==> plan[j].stay == unbooked[j] && Covers(plan[j])
    ensures FundsTrip(db, trip, plan)
  {
    UnbookedOfTrip(db, trip, ListStays(db, trip));
    forall j | 0 <= j < |plan|
      ensures plan[j].stay == View(db, plan[j].stay.row) && !plan[j].stay.Booked()
              && plan[j].stay.row in db.stays && plan[j].stay.row.trip == trip
    {
      assert unbooked[j] in unbooked;
    }
    forall row | row in db.stays && row.trip == trip && !View(db, row).Booked()
      ensures exists j :: 0 <= j < |plan| && plan[j].stay.row == row
    {
      var j :| 0 <= j < |unbooked| && unbooked[j] == View(db, row);
      assert plan[j].stay.row == row;
    }
  }

  lemma TripPlanExact(db: Db, trip: int)
    requires Consistent(db) && BookOnce(db, trip).Ok?
    ensures FindTrip(db.trips, trip).Some? && FundsTrip(db, trip, TripPlan(db, trip))
    ensures BookOnce(db, trip).value == PostPlan(db, FindTrip(db.trips, trip).value, TripPlan(db, trip))
    ensures var plan, unbooked := TripPlan(db, trip), Unbooked(ListStays(db, trip));
            |plan| == |unbooked| && forall j :: 0 <= j < |plan| ==> plan[j].stay == unbooked[j]
  {
    ListStaysExact(db, trip);
    PlanCovers(PoolOf(db), UnattributedUsage(db.entries), ListStays(db, trip));
    TripPlanFunds(db, trip, Unbooked(ListStays(db, trip)), TripPlan(db, trip));
  }

  /** What posting such a plan does to a stay: funds it if it was an unbooked stay of the trip, and
      otherwise leaves it as it was. */
  lemma PostedStay(db: Db, t: Trip, trip: int, plan: seq<Funded>, row: StayRow)
    requires KeysFit(db) && Bounded(db) && FundsTrip(db, trip, plan) && row in db.stays
    ensures var before, after := View(db, row), View(PostPlan(db, t, plan), row);
            if row.trip == trip && |before.entryIDs| == 0
            then |after.entryIDs| > 0 && after.entryPoints == row.points && !after.PartiallyBooked()
            else after == before
  {
    if row.trip == trip && !View(db, row).Booked() {
      var j :| 0 <= j < |plan| && plan[j].stay.row == row;
      assert LinkedEntries(db.entries, db.links, row.id) == [];
      PlanBooks(db, t, plan, j);
    } else {
      forall j | 0 <= j < |plan| ensures plan[j].stay.row.id != row.id {
        assert plan[j].stay.row in db.stays;
      }
      PlanKeeps(db, t, plan, row.id);
    }
  }

  /** The preview a member is shown before booking: what will be linked to each unbooked stay. */
  lemma PreviewRefinesBooking(db: Db, trip: int)
    requires Consistent(db) && FindTrip(db.trips, trip).Some?
    ensures var preview := PreviewFrom(PoolOf(db), UnattributedUsage(db.entries), ListStays(db, trip));
            && (preview.fundable <==> BookOnce(db, trip).Ok?)
            && (preview.fundable ==>
              var unbooked, after := Unbooked(ListStays(db, trip)), BookOnce(db, trip).value;
              && |preview.stays| == |unbooked|
              && forall j :: 0 <= j < |unbooked| ==>
                && preview.stays[j].stay == unbooked[j].row.id && preview.stays[j].fundable
                && Records(FindTrip(db.trips, trip).value, unbooked[j].row,
                           LinkedEntries(after.entries, after.links, unbooked[j].row.id), preview.stays[j].draws))
  {
    var p, legacyUsed, stays := PoolOf(db), UnattributedUsage(db.entries), ListStays(db, trip);
    PreviewIsPlan(p, legacyUsed, stays);
    if BookOnce(db, trip).Ok? {
      var t, plan := FindTrip(db.trips, trip).value, TripPlan(db, trip);
      TripPlanExact(db, trip);
      ConsistentIsBounded(db);
      forall j | 0 <= j < |plan|
        ensures var after, row := PostPlan(db, t, plan), plan[j].stay.row;
                Records(t, row, LinkedEntries(after.entries, after.links, row.id), plan[j].draws)
      {
        assert LinkedEntries(db.entries, db.links, plan[j].stay.row.id) == [];
        PlanBooks(db, t, plan, j);
      }
    }
  }

  /** Every draw is from a lot that is banked, current or borrowed for the stay, as it says. */
  ghost predicate Classified(contracts: seq<Contract>, f: Funded) {
    forall i :: 0 <= i < |f.draws| ==>
      Classify(MonthsOf(contracts), f.stay.row.checkIn, f.draws[i].key) == Some(f.draws[i].disposition)
  }

  lemma FundedClassified(p: Pool, legacyUsed: int, st: TripStay)
    requires st.row.points > 0 && FundStay(p, legacyUsed, st.row.checkIn, st.row.points).Some?
    ensures Classified(p.contracts, Funded(st, FundStay(p, legacyUsed, st.row.checkIn, st.row.points).value))
  {
    hide Allocate, Classify, MonthsOf, Eligible;
    var ds := Allocate(p, st.row.checkIn, st.row.points).value;
    AllocateFunds(p, st.row.checkIn, st.row.points);
    assert forall i :: 0 <= i < |ds| ==> Permitted(p, st.row.checkIn, ds[i]);
  }

  lemma {:induction false} PlanClassified(p: Pool, legacyUsed: int, stays: seq<TripStay>)
    requires Payable(stays) && Plan(p, legacyUsed, stays).Some?
    ensures forall j :: 0 <= j < |Plan(p, legacyUsed, stays).value| ==>
              Classified(p.contracts, Plan(p, legacyUsed, stays).value[j])
    decreases |stays|
  {
    hide FundStay, Classified;
    if stays != [] {
      if stays[0].Booked() {
        PlanClassified(p, legacyUsed, stays[1..]);
      } else {
        var ds := FundStay(p, legacyUsed, stays[0].row.checkIn, stays[0].row.points).value;
        FundedClassified(p, legacyUsed, stays[0]);
        PlanClassified(p.Spend(ds), legacyUsed, stays[1..]);
        var rest := Plan(p.Spend(ds), legacyUsed, stays[1..]).value;
        assert Plan(p, legacyUsed, stays).value == [Funded(stays[0], ds)] + rest;
      }
    }
  }

  /** What an entry that pays for a stay says: which of the three use years around the check-in it was drawn
      from, by the tag, and nothing else. */
  ghost predicate TellsUseYear(contracts: seq<Contract>, row: StayRow, e: Entry) {
    && e.contract.Some? && e.contract.value in MonthsOf(contracts)
    && var useYear := UseYearForDate(row.checkIn, MonthsOf(contracts)[e.contract.value]);
       && useYear - 1 <= e.useYear <= useYear + 1
       && (e.tag == "Bank" <==> e.useYear == useYear - 1)
       && (e.tag == "Borrow" <==> e.useYear == useYear + 1)
       && (e.tag == "" <==> e.useYear == useYear)
  }

  lemma RecordsTell(contracts: seq<Contract>, t: Trip, f: Funded, entries: seq<Entry>)
    requires Classified(contracts, f) && Records(t, f.stay.row, entries, f.draws)
    ensures forall i :: 0 <= i < |entries| ==> TellsUseYear(contracts, f.stay.row, entries[i])
  {
    hide MonthsOf, UseYearForDate;
    forall i | 0 <= i < |entries| ensures TellsUseYear(contracts, f.stay.row, entries[i]) {
      assert Classify(MonthsOf(contracts), f.stay.row.checkIn, f.draws[i].key) == Some(f.draws[i].disposition);
    }
  }

  /** After a booking, every entry linked to a stay it booked is usage of the trip on the check-in day, and is
      tagged "Bank" exactly when it was drawn from the use year before the check-in's for its contract,
      "Borrow" exactly when from the one after, and not at all exactly when from the check-in's own. */
  lemma BookedEntriesTell(db: Db, trip: int, row: StayRow, e: Entry)
    requires Consistent(db) && BookOnce(db, trip).Ok?
    requires row in db.stays && row.trip == trip && !View(db, row).Booked()
    requires var after := BookOnce(db, trip).value; e in after.entries && Link(row.id, e.id) in after.links
    ensures TellsUseYear(db.contracts, row, e)
    ensures e.kind == Usage && e.allotted == 0 && e.used > 0 && e.date == row.checkIn
    ensures FindTrip(db.trips, trip).Some?
    ensures e.desc == FindTrip(db.trips, trip).value.name + " — " + row.resort + " " + row.roomType
  {
    hide Classified, Records, TellsUseYear, Covers, PostPlan, LinkedEntries, Plan, PoolOf, UnattributedUsage, ListStays;
    var after, plan := BookOnce(db, trip).value, TripPlan(db, trip);
    TripPlanExact(db, trip);
    var t := FindTrip(db.trips, trip).value;
    var j :| 0 <= j < |plan| && plan[j].stay.row == row;
    var linked := LinkedEntries(after.entries, after.links, row.id);
    TripPlanClassified(db, trip);
    BookedRecords(db, t, trip, plan, j);
    LinkedMembers(after.entries, after.links, row.id);
    var i :| 0 <= i < |linked| && linked[i] == e;
    RecordsTell(db.contracts, t, plan[j], linked);
    RecordsUsage(t, plan[j], linked);
  }

  lemma TripPlanClassified(db: Db, trip: int)
    requires Consistent(db) && BookOnce(db, trip).Ok?
    ensures forall j :: 0 <= j < |TripPlan(db, trip)| ==> Classified(db.contracts, TripPlan(db, trip)[j])
  {
    hide Classified, ListStays;
    ListStaysExact(db, trip);
    PlanClassified(PoolOf(db), UnattributedUsage(db.entries), ListStays(db, trip));
  }

  lemma BookedRecords(db: Db, t: Trip, trip: int, plan: seq<Funded>, j: nat)
    requires Consistent(db) && FundsTrip(db, trip, plan) && j < |plan|
    ensures var after, row := PostPlan(db, t, plan), plan[j].stay.row;
            Records(t, row, LinkedEntries(after.entries, after.links, row.id), plan[j].draws)
    ensures Covers(plan[j])
  {
    hide Records, Covers;
    ConsistentIsBounded(db);
    assert LinkedEntries(db.entries, db.links, plan[j].stay.row.id) == [];
    PlanBooks(db, t, plan, j);
  }

  lemma RecordsUsage(t: Trip, f: Funded, entries: seq<Entry>)
    requires Records(t, f.stay.row, entries, f.draws) && Covers(f)
    ensures forall i :: 0 <= i < |entries| ==>
              && entries[i].kind == Usage && entries[i].allotted == 0 && entries[i].used > 0
              && entries[i].date == f.stay.row.checkIn
              && entries[i].desc == t.name + " — " + f.stay.row.resort + " " + f.stay.row.roomType
  {
  }

  lemma {:induction false} LinkedMembers(entries: seq<Entry>, links: set<Link>, stay: int)
    ensures forall e :: e in LinkedEntries(entries, links, stay) <==> e in entries && Link(stay, e.id) in links
  {
    if entries != [] {
      LinkedMembers(entries[..|entries| - 1], links, stay);
      assert entries == entries[..|entries| - 1] + [entries[|entries| - 1]];
    }
  }

  function PointsOf(stays: seq<TripStay>): int {
    if stays == [] then 0 else PointsOf(stays[..|stays| - 1]) + stays[|stays| - 1].row.points
  }

  lemma {:induction false} PlanTotal(plan: seq<Funded>, stays: seq<TripStay>)
    requires |plan| == |stays| && forall j :: 0 <= j < |plan| ==> plan[j].stay == stays[j] && Covers(plan[j])
    ensures TotalDrawn(AllDraws(plan)) == PointsOf(stays)
  {
    if plan != [] {
      PlanTotal(plan[..|plan| - 1], stays[..|plan| - 1]);
      DrawnConcat(AllDraws(plan[..|plan| - 1]), plan[|plan| - 1].draws, LotKey(0, 0));
    }
  }

  /** Booking conserves points: what was available falls by exactly the points of the newly booked
      stays, each of which is then funded in full; booking again changes nothing. */
  lemma BookingConserves(db: Db, trip: int)
    requires Consistent(db) && BookOnce(db, trip).Ok?
    ensures var after := BookOnce(db, trip).value;
            && Available(LotsOf(after.entries), ConsumedOf(after.entries), UnattributedUsage(after.entries))
               == Available(LotsOf(db.entries), ConsumedOf(db.entries), UnattributedUsage(db.entries))
                  - PointsOf(Unbooked(ListStays(db, trip)))
            && (forall row :: row in db.stays && row.trip == trip && !View(db, row).Booked() ==>
              View(after, row).Booked() && View(after, row).entryPoints == row.points)
            && BookOnce(after, trip) == Ok(after)
  {
    var t, plan := FindTrip(db.trips, trip).value, TripPlan(db, trip);
    var after := BookOnce(db, trip).value;
    TripPlanExact(db, trip);
    ConsistentIsBounded(db);
    PlanCharges(db, t, plan, LotKey(0, 0));
    PlanTotal(plan, Unbooked(ListStays(db, trip)));
    SnapshotExact(db);
    SnapshotExact(after);
    forall row | row in db.stays && row.trip == trip && !View(db, row).Booked()
      ensures View(after, row).Booked() && View(after, row).entryPoints == row.points
    {
      PostedStay(db, t, trip, plan, row);
    }
    PlanShape(db, t, plan);
    NothingLeftToBook(db, t, trip, plan);
    AllBooked(PoolOf(after), UnattributedUsage(after.entries), ListStays(after, trip));
  }

  lemma {:induction false} AllBooked(p: Pool, legacyUsed: int, stays: seq<TripStay>)
    requires forall i :: 0 <= i < |stays| ==> stays[i].Booked()
    ensures Plan(p, legacyUsed, stays) == Some([])
    decreases |stays|
  {
    if stays != [] {
      AllBooked(p, legacyUsed, stays[1..]);
    }
  }

  lemma NothingLeftToBook(db: Db, t: Trip, trip: int, plan: seq<Funded>)
    requires Consistent(db) && FundsTrip(db, trip, plan)
    ensures var stays := ListStays(PostPlan(db, t, plan), trip);
            forall i :: 0 <= i < |stays| ==> stays[i].Booked()
  {
    var after := PostPlan(db, t, plan);
    ConsistentIsBounded(db);
    PlanShape(db, t, plan);
    ListStaysExact(db, trip);
    var rows := TripRows(db, trip);
    assert ListStays(after, trip) == Views(after, rows);
    forall i | 0 <= i < |rows| ensures View(after, rows[i]).Booked() {
      assert ListStays(db, trip)[i].row == rows[i];
      PostedStay(db, t, trip, plan, rows[i]);
    }
  }
}
