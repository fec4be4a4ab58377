/** Concurrent bookings: BookTrip sessions interleaved with each other and with requests that only
raise balances.

Serializable isolation is an assumption about the database, written into Enabled(Commit): every
attempt reads the sums over all usage entries, so two attempts that both write can only be ordered one
after the other if the later began after the earlier committed. An attempt with something to write may
therefore commit only if no booking has written since its snapshot; otherwise it ends with a
serialization failure (Conflict) and writes nothing. The other requests run at the default isolation
level and may land anywhere. A link to a stay that has meanwhile been deleted is a foreign-key
violation, so it too keeps an attempt from committing. */
module Interleaving {
  import opened Types
  import opened Allocation
  import opened Accounting
  import opened Booking
  import opened Schema
  import opened Lifecycle
  import opened Import
  import opened Runs
  import Rows

  datatype Phase =
    | Ready                          // between attempts
    | Open(seen: Db, writes: nat)    // a transaction: its snapshot, and the bookings written by then
    | Committed
    | Refused                        // ErrInsufficientPoints or ErrTripNotFound
    | GaveUp                         // the last attempt's serialization failure

  /** One call of BookTrip. */
  datatype Session = Session(trip: int, attempts: nat, phase: Phase)

  datatype System = System(db: Db, sessions: map<int, Session>, writes: nat, commits: seq<int>)

  datatype Event = Begin(s: int) | Commit(s: int) | Refuse(s: int) | Conflict(s: int) | Other(r: Request)

  /** Requests that can only raise balances: everything but booking, posting usage, and deleting
      something that granted points. */
  ghost predicate RaisesBalances(db: Db, r: Request) {
    match r
    case BookTrip(_) => false
    case PostEntry(e) => e.used <= 0 && (e.kind == Usage ==> e.allotted == 0)
    case DeleteEntryRequest(id) =>
      forall i :: 0 <= i < |db.entries| && db.entries[i].id == id ==> db.entries[i].allotted <= 0
    case _ => true
  }

  ghost predicate Enabled(sys: System, ev: Event) {
    match ev
    case Begin(s) =>
      s in sys.sessions && sys.sessions[s].phase == Ready && sys.sessions[s].attempts < BOOK_TRIP_ATTEMPTS
    case Commit(s) =>
      && s in sys.sessions && sys.sessions[s].phase.Open?
      && BookOnce(sys.sessions[s].phase.seen, sys.sessions[s].trip).Ok?
      && var plan := TripPlan(sys.sessions[s].phase.seen, sys.sessions[s].trip);
      && (plan == [] || sys.sessions[s].phase.writes == sys.writes)
      && forall j :: 0 <= j < |plan| ==> HasStay(sys.db, plan[j].stay.row.id)
    case Refuse(s) =>
      s in sys.sessions && sys.sessions[s].phase.Open?
      && BookOnce(sys.sessions[s].phase.seen, sys.sessions[s].trip).Err?
    case Conflict(s) => s in sys.sessions && sys.sessions[s].phase.Open?
    case Other(r) => RaisesBalances(sys.db, r)
  }

  ghost function Next(sys: System, ev: Event): System
    requires Enabled(sys, ev)
  {
    match ev
    case Begin(s) =>
      var c := sys.sessions[s];
      sys.(sessions := sys.sessions[s := Session(c.trip, c.attempts + 1, Open(sys.db, sys.writes))])
    case Commit(s) =>
      var c := sys.sessions[s];
      var plan := TripPlan(c.phase.seen, c.trip);
      System(PostPlan(sys.db, FindTrip(c.phase.seen.trips, c.trip).value, plan),
             sys.sessions[s := c.(phase := Committed)],
             if plan == [] then sys.writes else sys.writes + 1,
             sys.commits + [s])
    case Refuse(s) => sys.(sessions := sys.sessions[s := sys.sessions[s].(phase := Refused)])
    case Conflict(s) =>
      var c := sys.sessions[s];
      sys.(sessions := sys.sessions[s := c.(phase := if c.attempts < BOOK_TRIP_ATTEMPTS then Ready else GaveUp)])
    case Other(r) => sys.(db := Apply(sys.db, r))
  }

  // ----- What an open attempt can rely on

  ghost predicate UsageGrantsNothing(db: Db) {
    forall i :: 0 <= i < |db.entries| ==> db.entries[i].kind == Usage ==> db.entries[i].allotted == 0
  }

  /** Balances have not fallen since the snapshot, and what the snapshot saw unbooked is still so. */
  ghost predicate Ahead(seen: Db, db: Db) {
    && (forall k :: LedgerBalance(seen.entries, k) <= LedgerBalance(db.entries, k))
    && LedgerAvailable(seen.entries) <= LedgerAvailable(db.entries)
    && (forall row :: row in seen.stays && LinkedEntries(seen.entries, seen.links, row.id) == [] ==>
      LinkedEntries(db.entries, db.links, row.id) == [])
  }

  /** Stay ids are not reused: a stay the snapshot saw is either unchanged or gone. */
  ghost predicate SameStays(seen: Db, db: Db) {
    && seen.nextStay <= db.nextStay
    && forall i :: 0 <= i < |db.stays| && db.stays[i].id < seen.nextStay ==> db.stays[i] in seen.stays
  }

  ghost predicate SessionFits(sys: System, s: int)
    requires s in sys.sessions
  {
    var c := sys.sessions[s];
    && c.attempts <= BOOK_TRIP_ATTEMPTS
    && (c.phase == Committed <==> s in sys.commits)
    && (c.phase.Open? ==>
      && Consistent(c.phase.seen) && SameStays(c.phase.seen, sys.db)
      && c.phase.writes <= sys.writes
      && (c.phase.writes == sys.writes ==> Ahead(c.phase.seen, sys.db)))
  }

  /** At most one attempt of each BookTrip call has committed. */
  ghost predicate Inv(sys: System) {
    && Consistent(sys.db) && UsageGrantsNothing(sys.db)
    && (forall s :: s in sys.sessions ==> SessionFits(sys, s))
    && (forall i, j :: 0 <= i < j < |sys.commits| ==> sys.commits[i] != sys.commits[j])
    && (forall i :: 0 <= i < |sys.commits| ==> sys.commits[i] in sys.sessions)
  }

  // ----- A plan never draws more than its snapshot's balances

  lemma {:induction false} DrawnNonNegative(ds: seq<Draw>, k: LotKey)
    requires forall i :: 0 <= i < |ds| ==> ds[i].points >= 0
    ensures Drawn(ds, k) >= 0
    ensures (forall i :: 0 <= i < |ds| ==> ds[i].key != k) ==> Drawn(ds, k) == 0
  {
    if ds != [] {
      DrawnNonNegative(ds[..|ds| - 1], k);
    }
  }

  lemma AllocatedWithinBalance(p: Pool, checkIn: Date, points: int, k: LotKey)
    requires points > 0 && Allocate(p, checkIn, points).Some?
    ensures 0 <= Drawn(Allocate(p, checkIn, points).value, k) <= Max(0, Balance(p, k))
  {
    AllocateFunds(p, checkIn, points);
    DrawnNonNegative(Allocate(p, checkIn, points).value, k);
    assert Eligible(p, checkIn, k) || forall i :: 0 <= i < |Allocate(p, checkIn, points).value| ==>
        Allocate(p, checkIn, points).value[i].key != k;
  }

  lemma {:induction false} PlanWithinBalance(p: Pool, legacyUsed: int, stays: seq<TripStay>, k: LotKey)
    requires Booking.Payable(stays) && Plan(p, legacyUsed, stays).Some?
    ensures var plan := Plan(p, legacyUsed, stays).value;
            && 0 <= Drawn(AllDraws(plan), k) <= Max(0, Balance(p, k))
            && (plan != [] ==> 0 <= TotalDrawn(AllDraws(plan)) <= Available(p.lots, p.consumed, legacyUsed))
    decreases |stays|
  {
    if stays != [] {
      if stays[0].Booked() {
        PlanWithinBalance(p, legacyUsed, stays[1..], k);
      } else {
        var ds := FundStay(p, legacyUsed, stays[0].row.checkIn, stays[0].row.points).value;
        AllocatedWithinBalance(p, stays[0].row.checkIn, stays[0].row.points, k);
        FundedCovers(p, legacyUsed, stays[0]);
        PlanWithinBalance(p.Spend(ds), legacyUsed, stays[1..], k);
        AllDrawsFirst(Funded(stays[0], ds), Plan(p.Spend(ds), legacyUsed, stays[1..]).value, k);
        DrawnConcat(p.consumed, ds, k);
      }
    }
  }

  // ----- The other requests

  /** What the other requests do to the tables an open attempt has read. */
  ghost predicate Rises(db: Db, after: Db) {
    && (forall k :: LedgerBalance(db.entries, k) <= LedgerBalance(after.entries, k))
    && LedgerAvailable(db.entries) <= LedgerAvailable(after.entries)
    && (forall stay :: stay < db.nextStay && LinkedEntries(db.entries, db.links, stay) == [] ==>
      LinkedEntries(after.entries, after.links, stay) == [])
    && SameStays(db, after) && UsageGrantsNothing(after)
  }

  lemma {:induction false} DropRaises(entries: seq<Entry>, dead: set<int>, k: LotKey)
    requires forall i :: 0 <= i < |entries| && entries[i].id in dead ==> entries[i].allotted <= 0
    ensures LedgerBalance(entries, k) <= LedgerBalance(Rows.Drop(EntryID, entries, dead), k)
    ensures LedgerAvailable(entries) <= LedgerAvailable(Rows.Drop(EntryID, entries, dead))
  {
    if entries != [] {
      DropRaises(entries[..|entries| - 1], dead, k);
    }
  }

  lemma DeletionRises(db: Db, dead: set<int>)
    requires Consistent(db) && UsageGrantsNothing(db)
    requires forall i :: 0 <= i < |db.entries| && db.entries[i].id in dead ==> db.entries[i].allotted <= 0
    ensures Rises(db, DeleteEntries(db, dead))
  {
    var after := DeleteEntries(db, dead);
    forall k ensures LedgerBalance(db.entries, k) <= LedgerBalance(after.entries, k) {
      DropRaises(db.entries, dead, k);
    }
    DropRaises(db.entries, dead, LotKey(0, 0));
    Rows.DropExact(EntryID, db.entries, dead);
    forall stay ensures LinkedEntries(after.entries, after.links, stay)
                        == Rows.Drop(EntryID, LinkedEntries(db.entries, db.links, stay), dead)
    {
      DropLinked(db.entries, db.links, dead, stay);
    }
    forall i | 0 <= i < |after.entries| ensures after.entries[i].kind == Usage ==> after.entries[i].allotted == 0 {
      assert after.entries[i] in after.entries;
    }
  }

  lemma UnlinkingRises(db: Db, stays: set<int>)
    requires Consistent(db) && UsageGrantsNothing(db)
    ensures Rises(db, DeleteEntries(db, EntriesLinkedTo(db, stays)))
  {
    var dead := EntriesLinkedTo(db, stays);
    forall i | 0 <= i < |db.entries| && db.entries[i].id in dead ensures db.entries[i].allotted <= 0 {
      var l :| l in db.links && l.stay in stays && l.entry == db.entries[i].id;
      UsageUnique(db, db.entries[i]);
    }
    DeletionRises(db, dead);
  }

  lemma StayRowsRise(db: Db, dead: set<int>)
    requires Consistent(db) && UsageGrantsNothing(db)
    ensures Rises(db, DeleteStayRows(db, dead))
  {
    var after := DeleteStayRows(db, dead);
    Rows.DropExact(StayID, db.stays, dead);
    forall stay | LinkedEntries(db.entries, db.links, stay) == []
      ensures LinkedEntries(after.entries, after.links, stay) == []
    {
      FewerLinks(db.entries, db.links, after.links, stay);
    }
    forall i | 0 <= i < |after.stays| ensures after.stays[i] in db.stays {
      assert after.stays[i] in after.stays;
    }
  }

  lemma {:induction false} FewerLinks(entries: seq<Entry>, links: set<Link>, fewer: set<Link>, stay: int)
    requires fewer <= links && LinkedEntries(entries, links, stay) == []
    ensures LinkedEntries(entries, fewer, stay) == []
  {
    if entries != [] {
      assert Link(stay, entries[|entries| - 1].id) !in links;
      FewerLinks(entries[..|entries| - 1], links, fewer, stay);
    }
  }

  lemma RisesTwice(a: Db, b: Db, c: Db)
    requires Rises(a, b) && Rises(b, c)
    ensures Rises(a, c)
  {
    forall k ensures LedgerBalance(a.entries, k) <= LedgerBalance(c.entries, k) {
      assert LedgerBalance(a.entries, k) <= LedgerBalance(b.entries, k);
    }
    forall i | 0 <= i < |c.stays| && c.stays[i].id < a.nextStay ensures c.stays[i] in a.stays {
      var j :| 0 <= j < |b.stays| && b.stays[j] == c.stays[i];
    }
  }

  lemma ImportRises(db: Db, t: Trip, stays: seq<ImportedStay>)
    requires Consistent(db) && UsageGrantsNothing(db) && ImportTrip(db, t, stays).Ok?
    ensures Rises(db, ImportTrip(db, t, stays).value.0)
  {
    var mid, after := AddTrip(db, AtLeastOneNight(t)).value, ImportTrip(db, t, stays).value.0;
    ImportWrites(db, t, stays);
    forall stay | stay < db.nextStay
      ensures LinkedEntries(after.entries, after.links, stay) == LinkedEntries(db.entries, db.links, stay)
    {
      forall e ensures Link(stay, e) in after.links <==> Link(stay, e) in db.links {
        assert !ClaimedLink(mid, stays, Link(stay, e));
      }
      OtherLinks(db.entries, after.links, db.links, stay);
    }
  }

  lemma PostingRises(db: Db, e: Entry)
    requires Consistent(db) && UsageGrantsNothing(db)
    requires e.used <= 0 && (e.kind == Usage ==> e.allotted == 0)
    ensures Rises(db, AddEntry(db, e))
  {
    var after := AddEntry(db, e);
    ConsistentIsBounded(db);
    assert after.entries[..|after.entries| - 1] == db.entries;
  }

  lemma DeletingTripRises(db: Db, trip: int)
    requires Consistent(db) && UsageGrantsNothing(db)
    ensures Rises(db, DeleteTrip(db, trip))
  {
    hide Consistent, Rises, DeleteEntries, DeleteStayRows, StayIDsOf, EntriesLinkedTo;
    var mid := Unbook(db, trip);
    UnlinkingRises(db, StayIDsOf(db.stays, trip));
    ApplyKeeps(db, UnbookTrip(trip));
    RisesGrantsNothing(db, mid);
    var after := DeleteStayRows(mid, StayIDsOf(mid.stays, trip));
    StayRowsRise(mid, StayIDsOf(mid.stays, trip));
    RisesTwice(db, mid, after);
    RisesWithoutTrips(db, after, DeleteTrip(db, trip));
  }

  lemma RisesGrantsNothing(db: Db, after: Db)
    requires Rises(db, after)
    ensures UsageGrantsNothing(after)
  {
  }

  lemma RisesWithoutTrips(db: Db, after: Db, other: Db)
    requires Rises(db, after) && other == after.(trips := other.trips)
    ensures Rises(db, other)
  {
    hide LedgerBalance, LedgerAvailable, LinkedEntries;
    forall k ensures LedgerBalance(db.entries, k) <= LedgerBalance(other.entries, k) {}
  }

  lemma DeletingStayRises(db: Db, stay: int)
    requires Consistent(db) && UsageGrantsNothing(db)
    ensures Rises(db, DeleteStay(db, stay))
  {
    hide Consistent, DeleteEntries, DeleteStayRows, EntriesLinkedTo;
    var mid := DeleteEntries(db, EntriesLinkedTo(db, {stay}));
    UnlinkingRises(db, {stay});
    DeleteEntriesKeeps(db, EntriesLinkedTo(db, {stay}));
    StayRowsRise(mid, {stay});
    RisesTwice(db, mid, DeleteStayRows(mid, {stay}));
  }

  lemma CreationRises(db: Db, r: Request)
    requires Consistent(db) && UsageGrantsNothing(db) && (r.CreateTrip? || r.CreateStay?)
    ensures Rises(db, Apply(db, r))
  {
  }

  lemma OtherRises(db: Db, r: Request)
    requires Consistent(db) && UsageGrantsNothing(db) && RaisesBalances(db, r)
    ensures Rises(db, Apply(db, r))
  {
    hide Consistent, Rises, DeleteEntries, BookOnce, ImportTrip, AddTrip, AddStay, AddEntry;
    match r
    case UnbookTrip(trip) => UnlinkingRises(db, StayIDsOf(db.stays, trip));
    case DeleteTripRequest(trip) => DeletingTripRises(db, trip);
    case DeleteStayRequest(stay) => DeletingStayRises(db, stay);
    case DeleteEntryRequest(entry) => DeletionRises(db, {entry});
    case PostEntry(e) => PostingRises(db, e);
    case CreateTrip(t) => CreationRises(db, r);
    case CreateStay(s) => CreationRises(db, r);
    case ImportBookedTrip(t, stays) =>
      if ImportTrip(db, t, stays).Ok? {
        ImportRises(db, t, stays);
      } else {
        UnchangedRises(db);
      }
  }

  lemma UnchangedRises(db: Db)
    requires Consistent(db) && UsageGrantsNothing(db)
    ensures Rises(db, db)
  {
  }

  // ----- Committing

  /** A plan made on a snapshot can still be posted when its stays are still there and unbooked. */
  lemma StillPostable(seen: Db, db: Db, plan: seq<Funded>)
    requires KeysFit(seen) && Postable(seen, plan) && SameStays(seen, db)
    requires plan != [] ==> Ahead(seen, db)
    requires forall j :: 0 <= j < |plan| ==> HasStay(db, plan[j].stay.row.id)
    ensures Postable(db, plan)
  {
    hide Covers, LedgerBalance, LedgerAvailable, LinkedEntries;
    forall j | 0 <= j < |plan|
      ensures plan[j].stay.row in db.stays && LinkedEntries(db.entries, db.links, plan[j].stay.row.id) == []
    {
      var row := plan[j].stay.row;
      var i :| 0 <= i < |db.stays| && db.stays[i].id == row.id;
      var k :| 0 <= k < |seen.stays| && seen.stays[k] == row;
      var m :| 0 <= m < |seen.stays| && seen.stays[m] == db.stays[i];
      Rows.SameRow(StayID, seen.stays, k, m);
    }
  }

  /** What committing rests on: the attempt's plan, made on a consistent snapshot, and a database that
      has not fallen behind it. */
  lemma CommitRests(sys: System, s: int)
    requires Inv(sys) && Enabled(sys, Commit(s))
    ensures var c := sys.sessions[s];
            var plan := TripPlan(c.phase.seen, c.trip);
            && Consistent(c.phase.seen) && SameStays(c.phase.seen, sys.db)
            && (plan != [] ==> Ahead(c.phase.seen, sys.db))
            && forall j :: 0 <= j < |plan| ==> HasStay(sys.db, plan[j].stay.row.id)
  {
    hide Consistent, SameStays, Ahead, UsageGrantsNothing, TripPlan, BookOnce, HasStay;
    assert SessionFits(sys, s);
  }

  lemma CommitIsPostable(sys: System, s: int)
    requires Inv(sys) && Enabled(sys, Commit(s))
    ensures Postable(sys.db, TripPlan(sys.sessions[s].phase.seen, sys.sessions[s].trip))
  {
    var seen, trip := sys.sessions[s].phase.seen, sys.sessions[s].trip;
    CommitRests(sys, s);
    hide KeysFit, LinksFit, StaysFit, NotOverfunded, SameStays, Ahead, UsageGrantsNothing, TripPlan, BookOnce, HasStay,
         Postable, FundsTrip, SessionFits;
    TripPlanExact(seen, trip);
    FundsTripIsPostable(seen, trip, TripPlan(seen, trip));
    StillPostable(seen, sys.db, TripPlan(seen, trip));
  }

  lemma TripPlanWithinBalance(db: Db, trip: int, k: LotKey)
    requires Consistent(db) && BookOnce(db, trip).Ok?
    ensures var draws := AllDraws(TripPlan(db, trip));
            && 0 <= Drawn(draws, k) <= Max(0, LedgerBalance(db.entries, k))
            && (TripPlan(db, trip) != [] ==> TotalDrawn(draws) <= LedgerAvailable(db.entries))
  {
    ListStaysExact(db, trip);
    SnapshotExact(db);
    hide LotsOf, ConsumedOf, UnattributedUsage, ListStays, KeysFit, StaysFit, LinksFit, NotOverfunded;
    PlanWithinBalance(PoolOf(db), UnattributedUsage(db.entries), ListStays(db, trip), k);
  }

  /** What a commit draws from a lot is no more than the lot holds at that moment, unless it draws
      nothing. */
  lemma CommitWithinBalance(sys: System, s: int, k: LotKey)
    requires Inv(sys) && Enabled(sys, Commit(s))
    ensures var plan := TripPlan(sys.sessions[s].phase.seen, sys.sessions[s].trip);
            && Drawn(AllDraws(plan), k) >= 0
            && (Drawn(AllDraws(plan), k) > 0 ==> Drawn(AllDraws(plan), k) <= LedgerBalance(sys.db.entries, k))
            && (plan != [] ==> TotalDrawn(AllDraws(plan)) <= LedgerAvailable(sys.db.entries))
  {
    var seen, trip := sys.sessions[s].phase.seen, sys.sessions[s].trip;
    CommitRests(sys, s);
    hide SessionFits, Consistent, SameStays, UsageGrantsNothing, TripPlan, BookOnce, HasStay,
         LedgerBalance, LedgerAvailable;
    TripPlanWithinBalance(seen, trip, k);
    if TripPlan(seen, trip) != [] {
      assert LedgerBalance(seen.entries, k) <= LedgerBalance(sys.db.entries, k);
    }
  }

  /** A commit funds only stays that are live and unbooked at that moment, each exactly in full. */
  lemma CommitFundsOnce(sys: System, s: int, j: nat)
    requires Inv(sys) && Enabled(sys, Commit(s))
    requires j < |TripPlan(sys.sessions[s].phase.seen, sys.sessions[s].trip)|
    ensures var row := TripPlan(sys.sessions[s].phase.seen, sys.sessions[s].trip)[j].stay.row;
            && row in sys.db.stays && !View(sys.db, row).Booked()
            && View(Next(sys, Commit(s)).db, row).Booked()
            && View(Next(sys, Commit(s)).db, row).entryPoints == row.points
  {
    var seen, trip := sys.sessions[s].phase.seen, sys.sessions[s].trip;
    CommitIsPostable(sys, s);
    ConsistentIsBounded(sys.db);
    PlanBooks(sys.db, FindTrip(seen.trips, trip).value, TripPlan(seen, trip), j);
  }

  lemma {:induction false} PlanGrantsNothing(db: Db, t: Trip, plan: seq<Funded>)
    requires Bounded(db) && UsageGrantsNothing(db)
    ensures UsageGrantsNothing(PostPlan(db, t, plan))
  {
    if plan != [] {
      var front, last := plan[..|plan| - 1], plan[|plan| - 1];
      PlanGrantsNothing(db, t, front);
      PlanShape(db, t, front);
      PostShape(PostPlan(db, t, front), t, last.stay.row, last.draws);
    }
  }

  // ----- Every step keeps the invariant, and no balance from below zero

  lemma StillAhead(seen: Db, db: Db, after: Db)
    requires SameStays(seen, db) && Rises(db, after) && KeysFit(seen)
    ensures SameStays(seen, after) && (Ahead(seen, db) ==> Ahead(seen, after))
  {
    forall i | 0 <= i < |after.stays| && after.stays[i].id < seen.nextStay ensures after.stays[i] in seen.stays {
      var j :| 0 <= j < |db.stays| && db.stays[j] == after.stays[i];
    }
    if Ahead(seen, db) {
      forall k ensures LedgerBalance(seen.entries, k) <= LedgerBalance(after.entries, k) {
        assert LedgerBalance(seen.entries, k) <= LedgerBalance(db.entries, k);
      }
      forall row | row in seen.stays && LinkedEntries(seen.entries, seen.links, row.id) == []
        ensures LinkedEntries(after.entries, after.links, row.id) == []
      {
        var i :| 0 <= i < |seen.stays| && seen.stays[i] == row;
      }
    }
  }

  lemma OtherKeepsInv(sys: System, r: Request)
    requires Inv(sys) && Enabled(sys, Other(r))
    ensures Inv(Next(sys, Other(r)))
  {
    var after := Next(sys, Other(r));
    ApplyKeeps(sys.db, r);
    OtherRises(sys.db, r);
    forall s | s in after.sessions ensures SessionFits(after, s) {
      assert SessionFits(sys, s);
      if sys.sessions[s].phase.Open? {
        StillAhead(sys.sessions[s].phase.seen, sys.db, after.db);
      }
    }
  }

  lemma BeginKeepsInv(sys: System, s: int)
    requires Inv(sys) && Enabled(sys, Begin(s))
    ensures Inv(Next(sys, Begin(s)))
  {
    var after := Next(sys, Begin(s));
    forall x | x in after.sessions ensures SessionFits(after, x) {
      assert SessionFits(sys, x);
    }
  }

  lemma EndingKeepsInv(sys: System, ev: Event)
    requires Inv(sys) && Enabled(sys, ev) && (ev.Refuse? || ev.Conflict?)
    ensures Inv(Next(sys, ev))
  {
    var after := Next(sys, ev);
    forall x | x in after.sessions ensures SessionFits(after, x) {
      assert SessionFits(sys, x);
    }
  }

  lemma CommitKeepsTables(sys: System, s: int)
    requires Inv(sys) && Enabled(sys, Commit(s))
    ensures var after := Next(sys, Commit(s)).db;
            Consistent(after) && UsageGrantsNothing(after)
            && after.stays == sys.db.stays && after.nextStay == sys.db.nextStay
  {
    var seen := sys.sessions[s].phase.seen;
    var t, plan := FindTrip(seen.trips, sys.sessions[s].trip).value, TripPlan(seen, sys.sessions[s].trip);
    CommitIsPostable(sys, s);
    PostPlanKeeps(sys.db, t, plan);
    ConsistentIsBounded(sys.db);
    PlanShape(sys.db, t, plan);
    PlanGrantsNothing(sys.db, t, plan);
  }

  lemma CommitKeepsSession(sys: System, s: int, x: int)
    requires Inv(sys) && Enabled(sys, Commit(s)) && x in sys.sessions
    ensures SessionFits(Next(sys, Commit(s)), x)
  {
    hide Consistent, UsageGrantsNothing, TripPlan, BookOnce, HasStay;
    assert SessionFits(sys, x) && SessionFits(sys, s);
    CommitKeepsTables(sys, s);
  }

  lemma CommitKeepsInv(sys: System, s: int)
    requires Inv(sys) && Enabled(sys, Commit(s))
    ensures Inv(Next(sys, Commit(s)))
  {
    hide Consistent, UsageGrantsNothing, TripPlan, BookOnce, PostPlan, HasStay;
    var after := Next(sys, Commit(s));
    CommitKeepsTables(sys, s);
    forall x | x in after.sessions ensures SessionFits(after, x) {
      CommitKeepsSession(sys, s, x);
    }
    assert SessionFits(sys, s) && s !in sys.commits;
    forall i, j | 0 <= i < j < |after.commits| ensures after.commits[i] != after.commits[j] {
      assert sys.commits[i] in sys.commits;
    }
  }

  lemma StepKeepsInv(sys: System, ev: Event)
    requires Inv(sys) && Enabled(sys, ev)
    ensures Inv(Next(sys, ev))
  {
    match ev
    case Begin(s) => BeginKeepsInv(sys, s);
    case Commit(s) => CommitKeepsInv(sys, s);
    case Refuse(s) => EndingKeepsInv(sys, ev);
    case Conflict(s) => EndingKeepsInv(sys, ev);
    case Other(r) => OtherKeepsInv(sys, r);
  }

  lemma StepKeepsSolvent(sys: System, ev: Event, k: LotKey)
    requires Inv(sys) && Enabled(sys, ev)
    ensures LedgerBalance(sys.db.entries, k) >= 0 ==> LedgerBalance(Next(sys, ev).db.entries, k) >= 0
    ensures LedgerAvailable(sys.db.entries) >= 0 ==> LedgerAvailable(Next(sys, ev).db.entries) >= 0
  {
    match ev
    case Commit(s) =>
      var seen := sys.sessions[s].phase.seen;
      CommitIsPostable(sys, s);
      CommitWithinBalance(sys, s, k);
      PlanCharges(sys.db, FindTrip(seen.trips, sys.sessions[s].trip).value, TripPlan(seen, sys.sessions[s].trip), k);
    case Other(r) =>
      OtherRises(sys.db, r);
      assert LedgerBalance(sys.db.entries, k) <= LedgerBalance(Next(sys, ev).db.entries, k);
    case _ =>
  }

  // ----- Runs

  /** A run: each event enabled in the state it happens in. */
  ghost predicate IsRun(sys: System, events: seq<Event>)
    decreases |events|
  {
    events == [] || (Enabled(sys, events[0]) && IsRun(Next(sys, events[0]), events[1..]))
  }

  ghost function After(sys: System, events: seq<Event>): System
    requires IsRun(sys, events)
    decreases |events|
  {
    if events == [] then sys else After(Next(sys, events[0]), events[1..])
  }

  /** Before any session has begun. */
  ghost predicate Initial(sys: System) {
    && Consistent(sys.db) && UsageGrantsNothing(sys.db)
    && sys.writes == 0 && sys.commits == []
    && forall s :: s in sys.sessions ==> sys.sessions[s].phase == Ready && sys.sessions[s].attempts == 0
  }

  /** In every reachable state of every interleaving: the schema's invariants hold (so no stay is funded
      beyond its points and no entry is linked twice), each BookTrip call has committed at most once in
      at most three attempts. */
  lemma {:induction false} InterleavingKeepsInv(sys: System, events: seq<Event>)
    requires Inv(sys) && IsRun(sys, events)
    ensures Inv(After(sys, events))
    decreases |events|
  {
    if events != [] {
      StepKeepsInv(sys, events[0]);
      InterleavingKeepsInv(Next(sys, events[0]), events[1..]);
    }
  }

  lemma InitialInv(sys: System)
    requires Initial(sys)
    ensures Inv(sys)
  {
  }

  /** No interleaving takes a lot, or the aggregate, from a balance of zero or more to below zero. */
  lemma {:induction false} InterleavingKeepsSolvent(sys: System, events: seq<Event>, k: LotKey)
    requires Inv(sys) && IsRun(sys, events)
    ensures LedgerBalance(sys.db.entries, k) >= 0 ==> LedgerBalance(After(sys, events).db.entries, k) >= 0
    ensures LedgerAvailable(sys.db.entries) >= 0 ==> LedgerAvailable(After(sys, events).db.entries) >= 0
    decreases |events|
  {
    if events != [] {
      StepKeepsInv(sys, events[0]);
      StepKeepsSolvent(sys, events[0], k);
      InterleavingKeepsSolvent(Next(sys, events[0]), events[1..], k);
    }
  }

  /** The whole claim, from an initial state: at any point of a run (after i events) the lots that were
      solvent are still solvent j events on, nothing is overfunded, and each session commits at most once. */
  lemma BookingsAreSafe(sys: System, before: seq<Event>, later: seq<Event>, k: LotKey)
    requires Initial(sys) && IsRun(sys, before) && IsRun(After(sys, before), later)
    ensures var a, b := After(sys, before), After(After(sys, before), later);
            && (LedgerBalance(a.db.entries, k) >= 0 ==> LedgerBalance(b.db.entries, k) >= 0)
            && (LedgerAvailable(a.db.entries) >= 0 ==> LedgerAvailable(b.db.entries) >= 0)
            && NotOverfunded(b.db) && LinksFit(b.db)
            && (forall i, j :: 0 <= i < j < |b.commits| ==> b.commits[i] != b.commits[j])
            && (forall s :: s in b.sessions ==> b.sessions[s].attempts <= 3)
  {
    InitialInv(sys);
    InterleavingKeepsInv(sys, before);
    InterleavingKeepsInv(After(sys, before), later);
    InterleavingKeepsSolvent(After(sys, before), later, k);
    forall s | s in After(After(sys, before), later).sessions
      ensures After(After(sys, before), later).sessions[s].attempts <= 3
    {
      assert SessionFits(After(After(sys, before), later), s);
    }
  }
}
