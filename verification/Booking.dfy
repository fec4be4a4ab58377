/** Booking a trip: what one transaction posts, and how it relates to the preview, to booking stay by
stay, to the ledger's totals, and to unbooking. */
module Booking {
  import opened Types
  import opened Allocation
  import opened Accounting
  import Rows
  import Sorting

  /** How many attempts one call of BookTrip makes. */
  const BOOK_TRIP_ATTEMPTS := 3

  // ----- Reading a trip's stays

  function LinkedEntries(entries: seq<Entry>, links: set<Link>, stay: int): seq<Entry> {
    if entries == [] then []
    else
      var front, e := LinkedEntries(entries[..|entries| - 1], links, stay), entries[|entries| - 1];
      if Link(stay, e.id) in links then front + [e] else front
  }

  function IDsOf(entries: seq<Entry>): (r: seq<int>)
    ensures |r| == |entries|
  {
    if entries == [] then [] else IDsOf(entries[..|entries| - 1]) + [entries[|entries| - 1].id]
  }

  function TotalUsed(entries: seq<Entry>): int {
    if entries == [] then 0 else TotalUsed(entries[..|entries| - 1]) + entries[|entries| - 1].used
  }

  /** A stay row with its linked entries' ids (in id order) and summed points. */
  function View(db: Db, row: StayRow): TripStay {
    var linked := LinkedEntries(db.entries, db.links, row.id);
    TripStay(row, IDsOf(linked), TotalUsed(linked))
  }

  function StayOrder(s: StayRow): (int, int) {
    (s.checkIn.day, s.id)
  }

  function StaysOfTrip(stays: seq<StayRow>, trip: int): seq<StayRow> {
    if stays == [] then []
    else
      var front, s := StaysOfTrip(stays[..|stays| - 1], trip), stays[|stays| - 1];
      if s.trip == trip then front + [s] else front
  }

  /** The trip's stay rows in (check-in, id) order. */
  function TripRows(db: Db, trip: int): seq<StayRow> {
    Sorting.SortBy(StayOrder, StaysOfTrip(db.stays, trip))
  }

  function Views(db: Db, rows: seq<StayRow>): (r: seq<TripStay>)
    ensures |r| == |rows|
    ensures forall i :: 0 <= i < |rows| ==> r[i] == View(db, rows[i])
  {
    if rows == [] then [] else Views(db, rows[..|rows| - 1]) + [View(db, rows[|rows| - 1])]
  }

  function ListStays(db: Db, trip: int): seq<TripStay> {
    Views(db, TripRows(db, trip))
  }

  function FindTrip(trips: seq<Trip>, id: int): Option<Trip> {
    if trips == [] then None
    else if trips[0].id == id then Some(trips[0])
    else FindTrip(trips[1..], id)
  }

  // ----- Posting

  /** The usage entry a draw is recorded as. */
  function EntryFor(t: Trip, st: StayRow, d: Draw, id: int): Entry {
    Entry(id, d.key.year, st.checkIn, t.name + " — " + st.resort + " " + st.roomType, Usage,
          0, d.points, DispositionTag(d.disposition), Some(d.key.contract))
  }

  function PostDraw(db: Db, t: Trip, st: StayRow, d: Draw): Db {
    db.(entries := db.entries + [EntryFor(t, st, d, db.nextEntry)],
        links := db.links + {Link(st.id, db.nextEntry)},
        nextEntry := db.nextEntry + 1)
  }

  function PostDraws(db: Db, t: Trip, st: StayRow, ds: seq<Draw>): Db {
    if ds == [] then db
    else PostDraw(PostDraws(db, t, st, ds[..|ds| - 1]), t, st, ds[|ds| - 1])
  }

  /** A stay a booking decides to fund, and the draws it decides on. */
  datatype Funded = Funded(stay: TripStay, draws: seq<Draw>)

  /** What the booking loop decides: each unbooked stay in turn, against the consumed draws of the
      stays before it; None when one of them is refused. */
  function Plan(p: Pool, legacyUsed: int, stays: seq<TripStay>): Option<seq<Funded>>
    decreases |stays|
  {
    if stays == [] then Some([])
    else if stays[0].Booked() then Plan(p, legacyUsed, stays[1..])
    else
      match FundStay(p, legacyUsed, stays[0].row.checkIn, stays[0].row.points)
      case None => None
      case Some(ds) =>
        match Plan(p.Spend(ds), legacyUsed, stays[1..])
        case None => None
        case Some(rest) => Some([Funded(stays[0], ds)] + rest)
  }

  /** What the booking loop writes. */
  function PostPlan(db: Db, t: Trip, plan: seq<Funded>): Db {
    if plan == [] then db
    else
      var last := plan[|plan| - 1];
      PostDraws(PostPlan(db, t, plan[..|plan| - 1]), t, last.stay.row, last.draws)
  }

  datatype BookError = TripNotFound | InsufficientPoints | SerializationFailure

  /** One booking attempt that meets no conflicting transaction. */
  function BookOnce(db: Db, trip: int): Result<Db, BookError> {
    match FindTrip(db.trips, trip)
    case None => Err(TripNotFound)
    case Some(t) =>
      match Plan(PoolOf(db), UnattributedUsage(db.entries), ListStays(db, trip))
      case None => Err(InsufficientPoints)
      case Some(plan) => Ok(PostPlan(db, t, plan))
  }

  // ----- Taking bookings back

  function LinksToOthers(links: set<Link>, dead: set<int>): set<Link> {
    set l | l in links && l.entry !in dead
  }

  /** DELETE FROM entry, with the cascade to trip_stay_entry. */
  function DeleteEntries(db: Db, dead: set<int>): Db {
    db.(entries := Rows.Drop(EntryID, db.entries, dead), links := LinksToOthers(db.links, dead))
  }

  function StayIDsOf(stays: seq<StayRow>, trip: int): set<int> {
    set s | s in stays && s.trip == trip :: s.id
  }

  function EntriesLinkedTo(db: Db, stays: set<int>): set<int> {
    set l | l in db.links && l.stay in stays :: l.entry
  }

  function Unbook(db: Db, trip: int): Db {
    DeleteEntries(db, EntriesLinkedTo(db, StayIDsOf(db.stays, trip)))
  }

  /** DELETE FROM trip_stay, with the cascade to trip_stay_entry; entries are not touched. */
  function DeleteStayRows(db: Db, dead: set<int>): Db {
    db.(stays := Rows.Drop(StayID, db.stays, dead), links := set l | l in db.links && l.stay !in dead)
  }

  /** DELETE FROM trip, with the cascade to its stays and their links. */
  function DeleteTripRow(db: Db, trip: int): Db {
    var after := DeleteStayRows(db, StayIDsOf(db.stays, trip));
    after.(trips := Rows.Drop(TripID, db.trips, {trip}))
  }

  function DeleteTrip(db: Db, trip: int): Db {
    DeleteTripRow(Unbook(db, trip), trip)
  }

  function DeleteStay(db: Db, stay: int): Db {
    DeleteStayRows(DeleteEntries(db, EntriesLinkedTo(db, {stay})), {stay})
  }

  // ----- What posting does to the tables

  /** Ids that have been handed out are below the identity counter. */
  ghost predicate Bounded(db: Db) {
    && (forall i :: 0 <= i < |db.entries| ==> db.entries[i].id < db.nextEntry)
    && (forall l :: l in db.links ==> l.entry < db.nextEntry)
  }

  function EntriesFor(t: Trip, st: StayRow, ds: seq<Draw>, next: int): (r: seq<Entry>)
    ensures |r| == |ds|
    ensures forall i :: 0 <= i < |ds| ==> r[i] == EntryFor(t, st, ds[i], next + i)
  {
    if ds == [] then []
    else EntriesFor(t, st, ds[..|ds| - 1], next) + [EntryFor(t, st, ds[|ds| - 1], next + |ds| - 1)]
  }

  lemma {:induction false} LinkBeyond(entries: seq<Entry>, links: set<Link>, stay: int, new_: Link)
    requires forall i :: 0 <= i < |entries| ==> entries[i].id != new_.entry
    ensures LinkedEntries(entries, links + {new_}, stay) == LinkedEntries(entries, links, stay)
  {
    if entries != [] {
      LinkBeyond(entries[..|entries| - 1], links, stay, new_);
    }
  }

  lemma {:induction false} PostShape(db: Db, t: Trip, st: StayRow, ds: seq<Draw>)
    requires Bounded(db)
    ensures var after := PostDraws(db, t, st, ds);
            && after == db.(entries := after.entries, links := after.links, nextEntry := db.nextEntry + |ds|)
            && after.entries == db.entries + EntriesFor(t, st, ds, db.nextEntry)
            && after.links == db.links + (set i | db.nextEntry <= i < db.nextEntry + |ds| :: Link(st.id, i))
            && Bounded(after)
  {
    if ds != [] {
      PostShape(db, t, st, ds[..|ds| - 1]);
    }
  }

  lemma PostDrawLinks(db: Db, t: Trip, st: StayRow, d: Draw, stay: int)
    requires Bounded(db)
    ensures var after, linked := PostDraw(db, t, st, d), LinkedEntries(db.entries, db.links, stay);
            LinkedEntries(after.entries, after.links, stay) ==
            if stay == st.id then linked + [EntryFor(t, st, d, db.nextEntry)] else linked
  {
    var after := PostDraw(db, t, st, d);
    LinkBeyond(db.entries, db.links, stay, Link(st.id, db.nextEntry));
    assert after.entries[..|after.entries| - 1] == db.entries;
    assert Link(stay, db.nextEntry) in after.links <==> stay == st.id;
  }

  lemma {:induction false} PostLinks(db: Db, t: Trip, st: StayRow, ds: seq<Draw>, stay: int)
    requires Bounded(db)
    ensures var after, linked := PostDraws(db, t, st, ds), LinkedEntries(db.entries, db.links, stay);
            LinkedEntries(after.entries, after.links, stay) ==
            if stay == st.id then linked + EntriesFor(t, st, ds, db.nextEntry) else linked
  {
    hide LinkedEntries, EntryFor, Bounded;
    var linked := LinkedEntries(db.entries, db.links, stay);
    if ds == [] {
      assert linked + [] == linked;
    } else {
      var front, last := ds[..|ds| - 1], ds[|ds| - 1];
      var mid := PostDraws(db, t, st, front);
      PostLinks(db, t, st, front, stay);
      PostShape(db, t, st, front);
      PostDrawLinks(mid, t, st, last, stay);
      var e := EntryFor(t, st, last, mid.nextEntry);
      assert EntriesFor(t, st, ds, db.nextEntry) == EntriesFor(t, st, front, db.nextEntry) + [e];
      assert (linked + EntriesFor(t, st, front, db.nextEntry)) + [e] == linked + EntriesFor(t, st, ds, db.nextEntry);
    }
  }

  lemma {:induction false} EntriesForTotals(t: Trip, st: StayRow, ds: seq<Draw>, next: int)
    ensures TotalUsed(EntriesFor(t, st, ds, next)) == TotalDrawn(ds)
    ensures |IDsOf(EntriesFor(t, st, ds, next))| == |ds|
  {
    if ds != [] {
      EntriesForTotals(t, st, ds[..|ds| - 1], next);
    }
  }

  /** Posted usage adds no points to any lot, and charges exactly the draws to the lots drawn on. */
  lemma {:induction false} PostCharges(db: Db, t: Trip, st: StayRow, ds: seq<Draw>, k: LotKey)
    requires forall i :: 0 <= i < |ds| ==> ds[i].points > 0
    ensures var after := PostDraws(db, t, st, ds);
            && after.contracts == db.contracts && after.stays == db.stays && after.trips == db.trips
            && LotsOf(after.entries) == LotsOf(db.entries)
            && AllottedTo(after.entries, k) == AllottedTo(db.entries, k)
            && UsedFrom(after.entries, k) == UsedFrom(db.entries, k) + Drawn(ds, k)
            && UnattributedUsage(after.entries) == UnattributedUsage(db.entries)
            && LedgerAvailable(after.entries) == LedgerAvailable(db.entries) - TotalDrawn(ds)
  {
    if ds != [] {
      PostCharges(db, t, st, ds[..|ds| - 1], k);
      var mid, after := PostDraws(db, t, st, ds[..|ds| - 1]), PostDraws(db, t, st, ds);
      assert after.entries[..|after.entries| - 1] == mid.entries;
    }
  }

  // ----- The in-memory consumed list and the SQL sums stay balance-equivalent

  /** The pool a booking carries gives every lot the balance, and every stay the aggregate, that a
      fresh snapshot of the tables would. */
  ghost predicate Tracks(p: Pool, legacyUsed: int, db: Db) {
    && p.contracts == db.contracts && p.lots == LotsOf(db.entries)
    && (forall k :: Drawn(p.consumed, k) == UsedFrom(db.entries, k))
    && Available(p.lots, p.consumed, legacyUsed) == LedgerAvailable(db.entries)
  }

  lemma SnapshotTracks(db: Db)
    ensures Tracks(PoolOf(db), UnattributedUsage(db.entries), db)
  {
    SnapshotExact(db);
    forall k ensures Drawn(ConsumedOf(db.entries), k) == UsedFrom(db.entries, k) {
      AsDrawsExact(ConsumedGroups(db.entries), k);
      ConsumedGroupsExact(db.entries, k);
    }
  }

  lemma TrackingFundsAlike(p: Pool, legacyUsed: int, db: Db, checkIn: Date, points: int)
    requires Tracks(p, legacyUsed, db)
    ensures FundStay(p, legacyUsed, checkIn, points) ==
            FundStay(PoolOf(db), UnattributedUsage(db.entries), checkIn, points)
  {
    SnapshotTracks(db);
    AllocateByBalances(p, PoolOf(db), checkIn, points);
  }

  lemma AllocatedArePositive(p: Pool, checkIn: Date, points: int)
    requires points > 0 && Allocate(p, checkIn, points).Some?
    ensures var ds := Allocate(p, checkIn, points).value;
            |ds| > 0 && TotalDrawn(ds) == points && forall i :: 0 <= i < |ds| ==> ds[i].points > 0
  {
    AllocateFunds(p, checkIn, points);
    var ds := Allocate(p, checkIn, points).value;
    forall i | 0 <= i < |ds| ensures ds[i].points > 0 {
      assert ds[i] in ds;
    }
  }

  lemma PostKeepsTracking(p: Pool, legacyUsed: int, db: Db, t: Trip, st: StayRow, ds: seq<Draw>)
    requires Tracks(p, legacyUsed, db)
    requires forall i :: 0 <= i < |ds| ==> ds[i].points > 0
    ensures Tracks(p.Spend(ds), legacyUsed, PostDraws(db, t, st, ds))
  {
    var after := PostDraws(db, t, st, ds);
    forall k ensures Drawn(p.consumed + ds, k) == UsedFrom(after.entries, k) {
      DrawnConcat(p.consumed, ds, k);
      PostCharges(db, t, st, ds, k);
    }
    DrawnConcat(p.consumed, ds, LotKey(0, 0));
    PostCharges(db, t, st, ds, LotKey(0, 0));
  }

  // ----- Plans

  ghost predicate DistinctStays(stays: seq<TripStay>) {
    forall i, j :: 0 <= i < j < |stays| ==> stays[i].row.id != stays[j].row.id
  }

  ghost predicate UpToDate(db: Db, stays: seq<TripStay>) {
    forall i :: 0 <= i < |stays| ==> stays[i] == View(db, stays[i].row)
  }

  ghost predicate Payable(stays: seq<TripStay>) {
    forall i :: 0 <= i < |stays| ==> stays[i].row.points > 0
  }

  function Unbooked(stays: seq<TripStay>): seq<TripStay> {
    if stays == [] then []
    else if stays[0].Booked() then Unbooked(stays[1..])
    else [stays[0]] + Unbooked(stays[1..])
  }

  /** Positive draws worth the stay's points. */
  ghost predicate Covers(f: Funded) {
    && TotalDrawn(f.draws) == f.stay.row.points && |f.draws| > 0
    && forall i :: 0 <= i < |f.draws| ==> f.draws[i].points > 0
  }

  /** A plan funds every unbooked stay, in order, in full. */
  lemma {:induction false} PlanCovers(p: Pool, legacyUsed: int, stays: seq<TripStay>)
    requires Payable(stays) && Plan(p, legacyUsed, stays).Some?
    ensures var plan, unbooked := Plan(p, legacyUsed, stays).value, Unbooked(stays);
            |plan| == |unbooked| && forall j :: 0 <= j < |plan| ==> plan[j].stay == unbooked[j] && Covers(plan[j])
    decreases |stays|
  {
    hide FundStay, Covers;
    if stays != [] {
      var rest := stays[1..];
      if stays[0].Booked() {
        PlanCovers(p, legacyUsed, rest);
      } else {
        var ds := FundStay(p, legacyUsed, stays[0].row.checkIn, stays[0].row.points).value;
        FundedCovers(p, legacyUsed, stays[0]);
        PlanCovers(p.Spend(ds), legacyUsed, rest);
        assert Plan(p, legacyUsed, stays).value == [Funded(stays[0], ds)] + Plan(p.Spend(ds), legacyUsed, rest).value;
      }
    }
  }

  lemma FundedCovers(p: Pool, legacyUsed: int, st: TripStay)
    requires st.row.points > 0 && FundStay(p, legacyUsed, st.row.checkIn, st.row.points).Some?
    ensures Covers(Funded(st, FundStay(p, legacyUsed, st.row.checkIn, st.row.points).value))
  {
    AllocatedArePositive(p, st.row.checkIn, st.row.points);
  }

  lemma {:induction false} UnbookedExact(stays: seq<TripStay>)
    ensures forall s :: s in Unbooked(stays) <==> s in stays && !s.Booked()
    ensures DistinctStays(stays) ==> DistinctStays(Unbooked(stays))
  {
    if stays != [] {
      UnbookedExact(stays[1..]);
      assert stays == [stays[0]] + stays[1..];
      if DistinctStays(stays) && !stays[0].Booked() {
        var rest := Unbooked(stays[1..]);
        forall j | 0 <= j < |rest| ensures rest[j].row.id != stays[0].row.id {
          assert rest[j] in rest;
          var i :| 0 <= i < |stays[1..]| && stays[1..][i] == rest[j];
          assert stays[i + 1] == rest[j];
        }
      }
    }
  }

  // ----- What posting a plan does

  ghost predicate DistinctPlan(plan: seq<Funded>) {
    forall i, j :: 0 <= i < j < |plan| ==> plan[i].stay.row.id != plan[j].stay.row.id
  }

  lemma {:induction false} PlanShape(db: Db, t: Trip, plan: seq<Funded>)
    requires Bounded(db)
    ensures var after := PostPlan(db, t, plan);
            && after == db.(entries := after.entries, links := after.links, nextEntry := after.nextEntry)
            && Bounded(after) && after.nextEntry >= db.nextEntry
  {
    if plan != [] {
      var front, last := plan[..|plan| - 1], plan[|plan| - 1];
      PlanShape(db, t, front);
      PostShape(PostPlan(db, t, front), t, last.stay.row, last.draws);
    }
  }

  /** Stays outside the plan keep their entries. */
  lemma {:induction false} PlanKeeps(db: Db, t: Trip, plan: seq<Funded>, stay: int)
    requires Bounded(db)
    requires forall j :: 0 <= j < |plan| ==> plan[j].stay.row.id != stay
    ensures var after := PostPlan(db, t, plan);
            LinkedEntries(after.entries, after.links, stay) == LinkedEntries(db.entries, db.links, stay)
  {
    if plan != [] {
      var front, last := plan[..|plan| - 1], plan[|plan| - 1];
      PlanKeeps(db, t, front, stay);
      PlanShape(db, t, front);
      PostLinks(PostPlan(db, t, front), t, last.stay.row, last.draws, stay);
    }
  }

  /** The entries record the stay's draws: date, description, contract, use year, tag and points, in order. */
  ghost predicate Records(t: Trip, row: StayRow, entries: seq<Entry>, draws: seq<Draw>) {
    && |entries| == |draws|
    && forall i :: 0 <= i < |draws| ==>
      && entries[i].date == row.checkIn && entries[i].desc == t.name + " — " + row.resort + " " + row.roomType
      && entries[i].kind == Usage && entries[i].allotted == 0
      && entries[i].contract == Some(draws[i].key.contract) && entries[i].useYear == draws[i].key.year
      && entries[i].used == draws[i].points
      && (draws[i].disposition == Banked ==> entries[i].tag == "Bank")
      && (draws[i].disposition == Borrowed ==> entries[i].tag == "Borrow")
      && (draws[i].disposition == Current ==> entries[i].tag == "")
  }

  lemma PostedRecord(t: Trip, row: StayRow, ds: seq<Draw>, next: int)
    ensures Records(t, row, EntriesFor(t, row, ds, next), ds)
  {
    hide EntriesFor;
    var posted := EntriesFor(t, row, ds, next);
    forall i | 0 <= i < |ds| ensures posted[i] == EntryFor(t, row, ds[i], next + i) {}
  }

  /** Posting to an unbooked stay leaves it linked to exactly the posted entries, which record the
      draws and are worth the stay's points. */
  lemma PostBooks(db: Db, t: Trip, row: StayRow, ds: seq<Draw>)
    requires Bounded(db) && LinkedEntries(db.entries, db.links, row.id) == []
    ensures var mid := PostDraws(db, t, row, ds);
            && Records(t, row, LinkedEntries(mid.entries, mid.links, row.id), ds)
            && |View(mid, row).entryIDs| == |ds| && View(mid, row).entryPoints == TotalDrawn(ds)
  {
    hide Records, EntryFor, PostDraws, Bounded, EntriesFor, LinkedEntries;
    PostLinks(db, t, row, ds, row.id);
    PostedRecord(t, row, ds, db.nextEntry);
    EntriesForTotals(t, row, ds, db.nextEntry);
    assert [] + EntriesFor(t, row, ds, db.nextEntry) == EntriesFor(t, row, ds, db.nextEntry);
  }

  /** Every stay of a plan ends up linked to entries that record its draws. */
  lemma {:induction false} PlanBooks(db: Db, t: Trip, plan: seq<Funded>, j: nat)
    requires Bounded(db) && DistinctPlan(plan) && j < |plan|
    requires LinkedEntries(db.entries, db.links, plan[j].stay.row.id) == []
    ensures var after, row := PostPlan(db, t, plan), plan[j].stay.row;
            && Records(t, row, LinkedEntries(after.entries, after.links, row.id), plan[j].draws)
            && |View(after, row).entryIDs| == |plan[j].draws|
            && View(after, row).entryPoints == TotalDrawn(plan[j].draws)
  {
    var front, last := plan[..|plan| - 1], plan[|plan| - 1];
    var mid := PostPlan(db, t, front);
    PlanShape(db, t, front);
    if j < |front| {
      PlanBooks(db, t, front, j);
      assert front[j] == plan[j];
      PostLinks(mid, t, last.stay.row, last.draws, plan[j].stay.row.id);
    } else {
      PlanKeeps(db, t, front, last.stay.row.id);
      PostBooks(mid, t, last.stay.row, last.draws);
    }
  }

  function AllDraws(plan: seq<Funded>): seq<Draw> {
    if plan == [] then [] else AllDraws(plan[..|plan| - 1]) + plan[|plan| - 1].draws
  }

  /** Posting a plan adds no points to any lot, and charges exactly its draws. */
  lemma {:induction false} PlanCharges(db: Db, t: Trip, plan: seq<Funded>, k: LotKey)
    requires forall j :: 0 <= j < |plan| ==> Covers(plan[j])
    ensures var after := PostPlan(db, t, plan);
            && LotsOf(after.entries) == LotsOf(db.entries)
            && AllottedTo(after.entries, k) == AllottedTo(db.entries, k)
            && UsedFrom(after.entries, k) == UsedFrom(db.entries, k) + Drawn(AllDraws(plan), k)
            && LedgerAvailable(after.entries) == LedgerAvailable(db.entries) - TotalDrawn(AllDraws(plan))
  {
    if plan != [] {
      var front, last := plan[..|plan| - 1], plan[|plan| - 1];
      PlanCharges(db, t, front, k);
      PostCharges(PostPlan(db, t, front), t, last.stay.row, last.draws, k);
      DrawnConcat(AllDraws(front), last.draws, k);
    }
  }

  lemma {:induction false} PlanFirst(db: Db, t: Trip, f: Funded, rest: seq<Funded>)
    ensures PostPlan(db, t, [f] + rest) == PostPlan(PostDraws(db, t, f.stay.row, f.draws), t, rest)
  {
    var plan := [f] + rest;
    if rest == [] {
      assert plan[..0] == [];
    } else {
      PlanFirst(db, t, f, rest[..|rest| - 1]);
      assert plan[..|plan| - 1] == [f] + rest[..|rest| - 1];
    }
  }

  lemma {:induction false} AllDrawsFirst(f: Funded, rest: seq<Funded>, k: LotKey)
    ensures Drawn(AllDraws([f] + rest), k) == Drawn(f.draws, k) + Drawn(AllDraws(rest), k)
    ensures TotalDrawn(AllDraws([f] + rest)) == TotalDrawn(f.draws) + TotalDrawn(AllDraws(rest))
  {
    var plan := [f] + rest;
    if rest == [] {
      assert plan[..0] == [] && [] + f.draws == f.draws;
    } else {
      AllDrawsFirst(f, rest[..|rest| - 1], k);
      assert plan[..|plan| - 1] == [f] + rest[..|rest| - 1];
      DrawnConcat(AllDraws(plan[..|plan| - 1]), plan[|plan| - 1].draws, k);
      DrawnConcat(AllDraws(rest[..|rest| - 1]), rest[|rest| - 1].draws, k);
    }
  }

  // ----- One transaction books what booking stay by stay would

  /** Books the rows one after another, each against a fresh reading of the tables as they then are. */
  function BookSerially(db: Db, t: Trip, rows: seq<StayRow>): Option<Db>
    decreases |rows|
  {
    if rows == [] then Some(db)
    else if View(db, rows[0]).Booked() then BookSerially(db, t, rows[1..])
    else
      var st := rows[0];
      match FundStay(PoolOf(db), UnattributedUsage(db.entries), st.checkIn, st.points)
      case None => None
      case Some(ds) => BookSerially(PostDraws(db, t, st, ds), t, rows[1..])
  }

  function RowsOf(stays: seq<TripStay>): (r: seq<StayRow>)
    ensures |r| == |stays| && forall i :: 0 <= i < |stays| ==> r[i] == stays[i].row
  {
    if stays == [] then [] else RowsOf(stays[..|stays| - 1]) + [stays[|stays| - 1].row]
  }

  lemma {:induction false} PlanIsSerial(db: Db, t: Trip, p: Pool, legacyUsed: int, stays: seq<TripStay>)
    requires Bounded(db) && Tracks(p, legacyUsed, db)
    requires DistinctStays(stays) && UpToDate(db, stays) && Payable(stays)
    ensures match Plan(p, legacyUsed, stays)
            case None => BookSerially(db, t, RowsOf(stays)) == None
            case Some(plan) => BookSerially(db, t, RowsOf(stays)) == Some(PostPlan(db, t, plan))
    decreases |stays|
  {
    hide FundStay, Tracks, Bounded, View, PoolOf, UnattributedUsage;
    if stays != [] {
      var st, rest := stays[0].row, stays[1..];
      assert RowsOf(stays)[1..] == RowsOf(rest);
      assert stays[0] == View(db, st);
      if stays[0].Booked() {
        PlanIsSerial(db, t, p, legacyUsed, rest);
      } else {
        TrackingFundsAlike(p, legacyUsed, db, st.checkIn, st.points);
        var r := FundStay(p, legacyUsed, st.checkIn, st.points);
        if r.Some? {
          FundedCovers(p, legacyUsed, stays[0]);
          SerialStep(db, t, p, legacyUsed, stays, r.value);
          PlanIsSerial(PostDraws(db, t, st, r.value), t, p.Spend(r.value), legacyUsed, rest);
          var planned := Plan(p.Spend(r.value), legacyUsed, rest);
          if planned.Some? {
            PlanFirst(db, t, Funded(stays[0], r.value), planned.value);
          }
        }
      }
    }
  }

  /** After a stay is posted, what the loop carries on with is as good as a fresh reading. */
  lemma SerialStep(db: Db, t: Trip, p: Pool, legacyUsed: int, stays: seq<TripStay>, ds: seq<Draw>)
    requires Bounded(db) && Tracks(p, legacyUsed, db) && stays != []
    requires DistinctStays(stays) && UpToDate(db, stays)
    requires forall i :: 0 <= i < |ds| ==> ds[i].points > 0
    ensures var mid := PostDraws(db, t, stays[0].row, ds);
            Bounded(mid) && Tracks(p.Spend(ds), legacyUsed, mid) && UpToDate(mid, stays[1..])
  {
    var st := stays[0].row;
    var mid := PostDraws(db, t, st, ds);
    PostShape(db, t, st, ds);
    PostKeepsTracking(p, legacyUsed, db, t, st, ds);
    forall i | 0 <= i < |stays[1..]| ensures stays[1..][i] == View(mid, stays[1..][i].row) {
      PostLinks(db, t, st, ds, stays[i + 1].row.id);
    }
  }

  // ----- The preview refines booking

  /** The dry run is fundable exactly when the booking loop funds every stay, with the same draws. */
  lemma {:induction false} PreviewIsPlan(p: Pool, legacyUsed: int, stays: seq<TripStay>)
    ensures PreviewFrom(p, legacyUsed, stays).fundable <==> Plan(p, legacyUsed, stays).Some?
    ensures Plan(p, legacyUsed, stays).Some? ==>
              var preview, plan := PreviewFrom(p, legacyUsed, stays).stays, Plan(p, legacyUsed, stays).value;
              |preview| == |plan| && forall j :: 0 <= j < |plan| ==>
                preview[j] == StayFunding(plan[j].stay.row.id, true, plan[j].draws, 0)
    decreases |stays|
  {
    if stays != [] {
      if stays[0].Booked() {
        PreviewIsPlan(p, legacyUsed, stays[1..]);
      } else {
        var r := FundStay(p, legacyUsed, stays[0].row.checkIn, stays[0].row.points);
        if r.Some? {
          PreviewIsPlan(p.Spend(r.value), legacyUsed, stays[1..]);
        }
      }
    }
  }

  /** After n fundable stays the preview ends with a refused one. */
  ghost predicate EndsRefusing(preview: seq<StayFunding>, n: nat, stay: int) {
    && |preview| == n + 1 && (forall j :: 0 <= j < n ==> preview[j].fundable)
    && preview[n].stay == stay && !preview[n].fundable && preview[n].shortBy > 0
  }

  /** Stay m is the first that booking refuses, and the preview ends refusing it. */
  ghost predicate StopsAt(p: Pool, legacyUsed: int, stays: seq<TripStay>, m: int) {
    && 0 <= m < |stays| && !stays[m].Booked()
    && Plan(p, legacyUsed, stays[..m]).Some? && Plan(p, legacyUsed, stays[..m + 1]).None?
    && EndsRefusing(PreviewFrom(p, legacyUsed, stays).stays, |Unbooked(stays[..m])|, stays[m].row.id)
  }

  lemma StopsNow(p: Pool, legacyUsed: int, stays: seq<TripStay>)
    requires stays != [] && !stays[0].Booked() && stays[0].row.points > 0
    requires FundStay(p, legacyUsed, stays[0].row.checkIn, stays[0].row.points).None?
    ensures StopsAt(p, legacyUsed, stays, 0)
  {
    ShortByBound(p, legacyUsed, stays[0].row.checkIn, stays[0].row.points);
    assert stays[..1][0] == stays[0];
  }

  lemma StopsAfterBooked(p: Pool, legacyUsed: int, stays: seq<TripStay>, n: int)
    requires stays != [] && stays[0].Booked()
    requires StopsAt(p, legacyUsed, stays[1..], n)
    ensures StopsAt(p, legacyUsed, stays, n + 1)
  {
    assert stays[..n + 1][1..] == stays[1..][..n] && stays[..n + 2][1..] == stays[1..][..n + 1];
  }

  lemma StopsAfterFunded(p: Pool, legacyUsed: int, stays: seq<TripStay>, ds: seq<Draw>, n: int)
    requires stays != [] && !stays[0].Booked()
    requires FundStay(p, legacyUsed, stays[0].row.checkIn, stays[0].row.points) == Some(ds)
    requires StopsAt(p.Spend(ds), legacyUsed, stays[1..], n)
    ensures StopsAt(p, legacyUsed, stays, n + 1)
  {
    assert stays[..n + 1][1..] == stays[1..][..n] && stays[..n + 2][1..] == stays[1..][..n + 1];
    assert PreviewFrom(p, legacyUsed, stays).stays ==
           [StayFunding(stays[0].row.id, true, ds, 0)] + PreviewFrom(p.Spend(ds), legacyUsed, stays[1..]).stays;
  }

  /** When not fundable, the dry run stops at the very stay where booking fails. */
  lemma {:induction false} PreviewStopsWhereBookingFails(p: Pool, legacyUsed: int, stays: seq<TripStay>)
    returns (m: nat)
    requires Payable(stays) && !PreviewFrom(p, legacyUsed, stays).fundable
    ensures StopsAt(p, legacyUsed, stays, m)
    decreases |stays|
  {
    if stays[0].Booked() {
      var n := PreviewStopsWhereBookingFails(p, legacyUsed, stays[1..]);
      StopsAfterBooked(p, legacyUsed, stays, n);
      m := n + 1;
    } else {
      var r := FundStay(p, legacyUsed, stays[0].row.checkIn, stays[0].row.points);
      if r.None? {
        StopsNow(p, legacyUsed, stays);
        m := 0;
      } else {
        var n := PreviewStopsWhereBookingFails(p.Spend(r.value), legacyUsed, stays[1..]);
        StopsAfterFunded(p, legacyUsed, stays, r.value, n);
        m := n + 1;
      }
    }
  }
}
