/** Every write a trip's life consists of keeps the schema's invariants, over any run. */
module Lifecycle {
  import opened Types
  import opened Accounting
  import opened Booking
  import opened Schema
  import Rows

  // ----- The other writes

  function AddEntry(db: Db, e: Entry): Db {
    db.(entries := db.entries + [e.(id := db.nextEntry)], nextEntry := db.nextEntry + 1)
  }

  function DeleteEntry(db: Db, id: int): Db {
    DeleteEntries(db, {id})
  }

  /** INSERT INTO trip; None is a CHECK violation. */
  function AddTrip(db: Db, t: Trip): Option<Db> {
    if t.startDate.day < t.endDate.day && 1 <= t.minNights <= 30
       && (t.budgetOverride.Some? ==> t.budgetOverride.value >= 0)
    then Some(db.(trips := db.trips + [t.(id := db.nextTrip)], nextTrip := db.nextTrip + 1))
    else None
  }

  /** INSERT INTO trip_stay; None is a CHECK or foreign-key violation. A stay is inserted unbooked. */
  function AddStay(db: Db, s: StayRow): Option<Db> {
    if s.checkIn.day < s.checkOut.day && s.nights == s.checkOut.day - s.checkIn.day && s.points > 0
       && FindTrip(db.trips, s.trip).Some?
    then Some(db.(stays := db.stays + [s.(id := db.nextStay)], nextStay := db.nextStay + 1))
    else None
  }

  // ----- Posting one entry

  /** What posting one entry does: it grants its allotted points to its contract's lot if they are positive,
      and takes its used points from that lot if they are; and whether or not it names a contract, positive
      used points leave what is available. Without a contract it grants nothing. */
  lemma PostingMoves(db: Db, e: Entry, k: LotKey)
    ensures var after, own := AddEntry(db, e), e.contract == Some(k.contract) && e.useYear == k.year;
            && AllottedTo(after.entries, k) == AllottedTo(db.entries, k) + (if own then Max(0, e.allotted) else 0)
            && UsedFrom(after.entries, k) == UsedFrom(db.entries, k) + (if own then Max(0, e.used) else 0)
            && LedgerAvailable(after.entries) ==
               LedgerAvailable(db.entries) + (if e.contract.Some? then Max(0, e.allotted) else 0) - Max(0, e.used)
  {
    var entries := AddEntry(db, e).entries;
    assert entries[..|entries| - 1] == db.entries;
  }

  // ----- Dropping entries

  lemma {:induction false} DropLinked(entries: seq<Entry>, links: set<Link>, dead: set<int>, stay: int)
    ensures LinkedEntries(Rows.Drop(EntryID, entries, dead), LinksToOthers(links, dead), stay)
            == Rows.Drop(EntryID, LinkedEntries(entries, links, stay), dead)
  {
    if entries != [] {
      DropLinked(entries[..|entries| - 1], links, dead, stay);
    }
  }

  lemma {:induction false} DropUsed(entries: seq<Entry>, dead: set<int>)
    requires forall i :: 0 <= i < |entries| ==> entries[i].used >= 0
    ensures TotalUsed(Rows.Drop(EntryID, entries, dead)) <= TotalUsed(entries)
  {
    if entries != [] {
      DropUsed(entries[..|entries| - 1], dead);
    }
  }

  lemma {:induction false} LinkedAscending(entries: seq<Entry>, links: set<Link>, stay: int)
    requires Rows.Ascending(EntryID, entries)
    ensures Rows.Ascending(EntryID, LinkedEntries(entries, links, stay))
  {
    if entries != [] {
      var front, last := entries[..|entries| - 1], entries[|entries| - 1];
      LinkedAscending(front, links, stay);
      LinkedMembers(front, links, stay);
      var linked := LinkedEntries(front, links, stay);
      forall i | 0 <= i < |linked| ensures EntryID(linked[i]) < EntryID(last) {
        assert linked[i] in linked;
        var j :| 0 <= j < |front| && front[j] == linked[i];
        assert entries[j] == front[j];
      }
    }
  }

  lemma UsageUnique(db: Db, e: Entry)
    requires KeysFit(db) && e in db.entries && HasUsage(db.entries, e.id)
    ensures e.kind == Usage && e.used > 0
  {
    var i :| 0 <= i < |db.entries| && db.entries[i] == e;
    var j :| 0 <= j < |db.entries| && db.entries[j].id == e.id && db.entries[j].kind == Usage && db.entries[j].used > 0;
    Rows.SameRow(EntryID, db.entries, i, j);
  }

  lemma LinkedArePositive(db: Db, stay: int)
    requires KeysFit(db) && LinksFit(db)
    ensures var linked := LinkedEntries(db.entries, db.links, stay);
            forall i :: 0 <= i < |linked| ==> linked[i].kind == Usage && linked[i].used > 0
  {
    var linked := LinkedEntries(db.entries, db.links, stay);
    LinkedMembers(db.entries, db.links, stay);
    forall i | 0 <= i < |linked| ensures linked[i].kind == Usage && linked[i].used > 0 {
      assert linked[i] in linked;
      UsageUnique(db, linked[i]);
    }
  }

  lemma KeptUsage(db: Db, dead: set<int>, id: int)
    requires KeysFit(db) && HasUsage(db.entries, id) && id !in dead
    ensures HasUsage(Rows.Drop(EntryID, db.entries, dead), id)
  {
    Rows.DropExact(EntryID, db.entries, dead);
    var kept := Rows.Drop(EntryID, db.entries, dead);
    var i :| 0 <= i < |db.entries| && db.entries[i].id == id && db.entries[i].kind == Usage && db.entries[i].used > 0;
    assert db.entries[i] in kept;
    var j :| 0 <= j < |kept| && kept[j] == db.entries[i];
  }

  lemma DeleteEntriesKeeps(db: Db, dead: set<int>)
    requires Consistent(db)
    ensures Consistent(DeleteEntries(db, dead))
  {
    var after := DeleteEntries(db, dead);
    Rows.DropExact(EntryID, db.entries, dead);
    forall i | 0 <= i < |after.entries| ensures after.entries[i].id < after.nextEntry {
      assert after.entries[i] in db.entries;
    }
    forall l | l in after.links ensures HasStay(after, l.stay) && HasUsage(after.entries, l.entry) {
      KeptUsage(db, dead, l.entry);
      assert HasStay(db, l.stay);
    }
    forall i | 0 <= i < |after.stays| ensures View(after, after.stays[i]).entryPoints <= after.stays[i].points {
      var stay := db.stays[i].id;
      DropLinked(db.entries, db.links, dead, stay);
      LinkedArePositive(db, stay);
      DropUsed(LinkedEntries(db.entries, db.links, stay), dead);
      assert View(db, db.stays[i]).entryPoints <= db.stays[i].points;
    }
    forall i | 0 <= i < |after.stays| ensures after.stays[i].points > 0 && HasTrip(after, after.stays[i].trip) {
      assert HasTrip(db, db.stays[i].trip);
    }
  }

  lemma {:induction false} DropOne(entries: seq<Entry>, i: nat)
    requires Rows.Ascending(EntryID, entries) && i < |entries|
    requires forall j :: 0 <= j < |entries| ==> entries[j].used > 0
    ensures var rest := Rows.Drop(EntryID, entries, {entries[i].id});
            |rest| == |entries| - 1 && TotalUsed(rest) == TotalUsed(entries) - entries[i].used
  {
    var front, last := entries[..|entries| - 1], entries[|entries| - 1];
    if i < |front| {
      DropOne(front, i);
      assert EntryID(entries[i]) < EntryID(last);
    } else {
      forall j | 0 <= j < |front| ensures EntryID(front[j]) !in {last.id} {
        assert EntryID(entries[j]) < EntryID(last);
      }
      Rows.DropNone(EntryID, front, {last.id});
    }
  }

  /** Deleting one of the entries that fund a fully funded stay leaves it partly booked, or, if it was the
      only one, unbooked. */
  lemma DeletingEntryPartlyUnbooks(db: Db, row: StayRow, id: int)
    requires Consistent(db) && Link(row.id, id) in db.links && View(db, row).entryPoints == row.points
    ensures var before, after := View(db, row), View(DeleteEntry(db, id), row);
            && |after.entryIDs| == |before.entryIDs| - 1 && after.entryPoints < row.points
            && !before.PartiallyBooked() && (after.PartiallyBooked() <==> |before.entryIDs| > 1)
  {
    hide LinkedEntries, TotalUsed, IDsOf, HasStay, StaysFit, NotOverfunded;
    var linked := LinkedEntries(db.entries, db.links, row.id);
    DropLinked(db.entries, db.links, {id}, row.id);
    LinkedAscending(db.entries, db.links, row.id);
    LinkedArePositive(db, row.id);
    LinkedMembers(db.entries, db.links, row.id);
    assert HasUsage(db.entries, Link(row.id, id).entry);
    var i :| 0 <= i < |db.entries| && db.entries[i].id == id;
    assert db.entries[i] in linked;
    var j :| 0 <= j < |linked| && linked[j] == db.entries[i];
    DropOne(linked, j);
  }

  // ----- Dropping stays

  lemma {:induction false} OtherLinks(entries: seq<Entry>, a: set<Link>, b: set<Link>, stay: int)
    requires forall i :: Link(stay, i) in a <==> Link(stay, i) in b
    ensures LinkedEntries(entries, a, stay) == LinkedEntries(entries, b, stay)
  {
    if entries != [] {
      OtherLinks(entries[..|entries| - 1], a, b, stay);
    }
  }

  lemma KeptStay(db: Db, dead: set<int>, id: int)
    requires KeysFit(db) && HasStay(db, id) && id !in dead
    ensures HasStay(DeleteStayRows(db, dead), id)
  {
    Rows.DropExact(StayID, db.stays, dead);
    var kept := Rows.Drop(StayID, db.stays, dead);
    var i :| 0 <= i < |db.stays| && db.stays[i].id == id;
    assert db.stays[i] in kept;
    var j :| 0 <= j < |kept| && kept[j] == db.stays[i];
  }

  lemma DeleteStayRowsKeeps(db: Db, dead: set<int>)
    requires Consistent(db)
    ensures Consistent(DeleteStayRows(db, dead))
  {
    var after := DeleteStayRows(db, dead);
    Rows.DropExact(StayID, db.stays, dead);
    forall i | 0 <= i < |after.stays|
      ensures after.stays[i].id < after.nextStay && after.stays[i].points > 0 && HasTrip(after, after.stays[i].trip)
              && View(after, after.stays[i]).entryPoints <= after.stays[i].points
    {
      assert after.stays[i] in db.stays;
      var j :| 0 <= j < |db.stays| && db.stays[j] == after.stays[i];
      assert HasTrip(db, db.stays[j].trip);
      assert after.stays[i] in after.stays;
      OtherLinks(db.entries, db.links, after.links, after.stays[i].id);
      assert View(db, db.stays[j]).entryPoints <= db.stays[j].points;
    }
    forall l | l in after.links ensures HasStay(after, l.stay) && HasUsage(after.entries, l.entry) {
      KeptStay(db, dead, l.stay);
      assert HasUsage(db.entries, l.entry);
    }
  }

  /** What a stay's view depends on. */
  lemma SameView(db: Db, other: Db, row: StayRow)
    requires db.entries == other.entries && db.links == other.links
    ensures View(db, row) == View(other, row)
  {
  }

  lemma DeleteTripRowKeeps(db: Db, trip: int)
    requires Consistent(db)
    ensures Consistent(DeleteTripRow(db, trip))
  {
    hide View, StayIDsOf, HasUsage;
    var dead := StayIDsOf(db.stays, trip);
    var mid, after := DeleteStayRows(db, dead), DeleteTripRow(db, trip);
    DeleteStayRowsKeeps(db, dead);
    TripsLeft(db, trip);
    forall i | 0 <= i < |after.stays| ensures after.stays[i].points > 0 && HasTrip(after, after.stays[i].trip) {
      assert HasTrip(mid, after.stays[i].trip);
      assert after.stays[i] in after.stays;
    }
    forall l | l in after.links ensures HasStay(after, l.stay) && HasUsage(after.entries, l.entry) {
      assert HasStay(mid, l.stay);
    }
    forall i | 0 <= i < |after.stays| ensures View(after, after.stays[i]).entryPoints <= after.stays[i].points {
      SameView(after, mid, after.stays[i]);
    }
  }

  lemma TripsLeft(db: Db, trip: int)
    requires KeysFit(db)
    ensures var after := DeleteTripRow(db, trip);
            && Rows.Ascending(TripID, after.trips)
            && (forall i :: 0 <= i < |after.trips| ==> after.trips[i].id < after.nextTrip)
            && forall s :: s in after.stays && HasTrip(db, s.trip) ==> HasTrip(after, s.trip)
  {
    var after := DeleteTripRow(db, trip);
    Rows.DropExact(StayID, db.stays, StayIDsOf(db.stays, trip));
    Rows.DropExact(TripID, db.trips, {trip});
    forall i | 0 <= i < |after.trips| ensures after.trips[i].id < after.nextTrip {
      assert after.trips[i] in db.trips;
    }
    forall s | s in after.stays && HasTrip(db, s.trip) ensures HasTrip(after, s.trip) {
      var j :| 0 <= j < |db.trips| && db.trips[j].id == s.trip;
      assert db.trips[j] in after.trips;
      var k :| 0 <= k < |after.trips| && after.trips[k] == db.trips[j];
    }
  }

  // ----- Booking

  /** Each stay of the plan is live, and has no entries yet. */
  ghost predicate Postable(db: Db, plan: seq<Funded>) {
    && DistinctPlan(plan)
    && forall j :: 0 <= j < |plan| ==>
      && Covers(plan[j]) && plan[j].stay.row in db.stays
      && LinkedEntries(db.entries, db.links, plan[j].stay.row.id) == []
  }

  /** The posted rows carry the next ids in order, and are usage worth their draws. */
  lemma PostedUsage(t: Trip, row: StayRow, ds: seq<Draw>, next: int, k: nat)
    requires k < |ds|
    ensures var e := EntriesFor(t, row, ds, next)[k];
            e.id == next + k && e.kind == Usage && e.used == ds[k].points
  {
  }

  lemma PostedLinks(db: Db, t: Trip, row: StayRow, ds: seq<Draw>)
    requires Bounded(db)
    ensures var links := PostDraws(db, t, row, ds).links;
            && (forall l :: l in db.links ==> l in links)
            && (forall l :: l in links ==> l in db.links || (l.stay == row.id && l.entry >= db.nextEntry))
            && forall e :: db.nextEntry <= e < db.nextEntry + |ds| ==> Link(row.id, e) in links
  {
    PostShape(db, t, row, ds);
  }

  lemma PostedEntries(db: Db, t: Trip, row: StayRow, ds: seq<Draw>)
    requires Bounded(db)
    ensures var entries, n := PostDraws(db, t, row, ds).entries, |db.entries|;
            && |entries| == n + |ds| && entries[..n] == db.entries
            && forall i :: n <= i < |entries| ==> entries[i].id == db.nextEntry + (i - n)
  {
    hide EntryFor;
    PostShape(db, t, row, ds);
    var entries, n := PostDraws(db, t, row, ds).entries, |db.entries|;
    forall i | n <= i < |entries| ensures entries[i].id == db.nextEntry + (i - n) {
      PostedUsage(t, row, ds, db.nextEntry, i - n);
    }
  }

  lemma PostDrawsKeepsKeys(db: Db, t: Trip, row: StayRow, ds: seq<Draw>)
    requires KeysFit(db) && Bounded(db)
    ensures KeysFit(PostDraws(db, t, row, ds))
  {
    hide EntryFor;
    PostShape(db, t, row, ds);
    PostedEntries(db, t, row, ds);
    assert forall i :: 0 <= i < |db.entries| ==> PostDraws(db, t, row, ds).entries[i] == db.entries[i];
  }

  lemma PostDrawsKeeps(db: Db, t: Trip, row: StayRow, ds: seq<Draw>)
    requires KeysFit(db) && LinksFit(db) && HasStay(db, row.id)
    requires forall i :: 0 <= i < |ds| ==> ds[i].points > 0
    ensures KeysFit(PostDraws(db, t, row, ds)) && LinksFit(PostDraws(db, t, row, ds))
  {
    hide EntryFor, KeysFit;
    ConsistentIsBounded(db);
    PostDrawsKeepsKeys(db, t, row, ds);
    PostShape(db, t, row, ds);
    var after := PostDraws(db, t, row, ds);
    forall l | l in after.links ensures HasStay(after, l.stay) && HasUsage(after.entries, l.entry) {
      if l in db.links {
        assert HasStay(db, l.stay);
        var i :| 0 <= i < |db.entries| && db.entries[i].id == l.entry
                 && db.entries[i].kind == Usage && db.entries[i].used > 0;
        assert after.entries[i] == db.entries[i];
      } else {
        var k := l.entry - db.nextEntry;
        PostedUsage(t, row, ds, db.nextEntry, k);
        assert after.entries[|db.entries| + k].id == l.entry;
      }
    }
  }

  lemma {:induction false} PlanKeepsKeys(db: Db, t: Trip, plan: seq<Funded>)
    requires KeysFit(db) && LinksFit(db)
    requires forall j :: 0 <= j < |plan| ==> Covers(plan[j]) && HasStay(db, plan[j].stay.row.id)
    ensures KeysFit(PostPlan(db, t, plan)) && LinksFit(PostPlan(db, t, plan))
  {
    if plan != [] {
      var front, last := plan[..|plan| - 1], plan[|plan| - 1];
      PlanKeepsKeys(db, t, front);
      ConsistentIsBounded(db);
      PlanShape(db, t, front);
      assert HasStay(db, last.stay.row.id);
      PostDrawsKeeps(PostPlan(db, t, front), t, last.stay.row, last.draws);
    }
  }

  /** A stay's view after a plan is posted. */
  lemma PostedView(db: Db, t: Trip, plan: seq<Funded>, row: StayRow)
    requires Bounded(db) && Postable(db, plan)
    ensures var after := View(PostPlan(db, t, plan), row);
            (exists j :: 0 <= j < |plan| && plan[j].stay.row.id == row.id
                         && after.Booked() && after.entryPoints == plan[j].stay.row.points)
            || after == View(db, row)
  {
    if j :| 0 <= j < |plan| && plan[j].stay.row.id == row.id {
      PlanBooks(db, t, plan, j);
    } else {
      PlanKeeps(db, t, plan, row.id);
    }
  }

  lemma PostedWithin(db: Db, t: Trip, plan: seq<Funded>, i: nat)
    requires Consistent(db) && Bounded(db) && Postable(db, plan) && i < |db.stays|
    ensures View(PostPlan(db, t, plan), db.stays[i]).entryPoints <= db.stays[i].points
  {
    hide View, PostPlan, LinkedEntries, Covers;
    var after := PostPlan(db, t, plan);
    PostedView(db, t, plan, db.stays[i]);
    assert View(db, db.stays[i]).entryPoints <= db.stays[i].points;
    if j :| 0 <= j < |plan| && plan[j].stay.row.id == db.stays[i].id
            && View(after, db.stays[i]).entryPoints == plan[j].stay.row.points {
      var k :| 0 <= k < |db.stays| && db.stays[k] == plan[j].stay.row;
      Rows.SameRow(StayID, db.stays, i, k);
    }
  }

  lemma PostPlanKeeps(db: Db, t: Trip, plan: seq<Funded>)
    requires Consistent(db) && Postable(db, plan)
    ensures Consistent(PostPlan(db, t, plan))
  {
    hide View, Covers, PostPlan, LinkedEntries;
    var after := PostPlan(db, t, plan);
    ConsistentIsBounded(db);
    PlanShape(db, t, plan);
    forall j | 0 <= j < |plan| ensures HasStay(db, plan[j].stay.row.id) {
      var i :| 0 <= i < |db.stays| && db.stays[i] == plan[j].stay.row;
    }
    PlanKeepsKeys(db, t, plan);
    forall i | 0 <= i < |after.stays| ensures after.stays[i].points > 0 && HasTrip(after, after.stays[i].trip) {
      assert HasTrip(db, db.stays[i].trip);
    }
    forall i | 0 <= i < |after.stays| ensures View(after, after.stays[i]).entryPoints <= after.stays[i].points {
      PostedWithin(db, t, plan, i);
    }
  }

  lemma FundsTripIsPostable(db: Db, trip: int, plan: seq<Funded>)
    requires FundsTrip(db, trip, plan)
    ensures Postable(db, plan)
  {
    forall j | 0 <= j < |plan| ensures LinkedEntries(db.entries, db.links, plan[j].stay.row.id) == [] {
      assert plan[j].stay == View(db, plan[j].stay.row) && !plan[j].stay.Booked();
    }
  }

  lemma BookOnceKeeps(db: Db, trip: int)
    requires Consistent(db) && BookOnce(db, trip).Ok?
    ensures Consistent(BookOnce(db, trip).value)
  {
    TripPlanExact(db, trip);
    FundsTripIsPostable(db, trip, TripPlan(db, trip));
    PostPlanKeeps(db, FindTrip(db.trips, trip).value, TripPlan(db, trip));
  }

  /** Booking the trip again does not top such a stay up: a partly booked stay stays as it is. */
  lemma RebookingLeavesPartial(db: Db, trip: int, row: StayRow)
    requires Consistent(db) && BookOnce(db, trip).Ok? && row in db.stays && View(db, row).PartiallyBooked()
    ensures View(BookOnce(db, trip).value, row) == View(db, row)
  {
    hide View, Plan, PostPlan, PoolOf, Covers, ListStays;
    TripPlanExact(db, trip);
    ConsistentIsBounded(db);
    PostedStay(db, FindTrip(db.trips, trip).value, trip, TripPlan(db, trip), row);
  }

  // ----- Unbooking undoes booking

  /** A plan's additions come after the old rows, and are all linked to its stays. */
  ghost predicate Extends(db: Db, after: Db, stays: set<int>) {
    && |db.entries| <= |after.entries| && after.entries[..|db.entries|] == db.entries
    && (forall i :: |db.entries| <= i < |after.entries| ==>
      after.entries[i].id >= db.nextEntry && exists s :: s in stays && Link(s, after.entries[i].id) in after.links)
    && (forall l :: l in db.links ==> l in after.links)
    && (forall l :: l in after.links ==> l in db.links || (l.stay in stays && l.entry >= db.nextEntry))
  }

  lemma ExtendedByDraws(db: Db, mid: Db, t: Trip, row: StayRow, ds: seq<Draw>, stays: set<int>)
    requires Bounded(mid) && mid.nextEntry >= db.nextEntry && row.id in stays
    requires Extends(db, mid, stays)
    ensures Extends(db, PostDraws(mid, t, row, ds), stays)
  {
    hide PostDraws, Bounded;
    PostedLinks(mid, t, row, ds);
    PostedEntries(mid, t, row, ds);
    var after, n := PostDraws(mid, t, row, ds), |mid.entries|;
    forall i | |db.entries| <= i < |after.entries|
      ensures after.entries[i].id >= db.nextEntry
              && exists s :: s in stays && Link(s, after.entries[i].id) in after.links
    {
      if i < n {
        assert after.entries[i] == mid.entries[i];
      } else {
        assert Link(row.id, after.entries[i].id) in after.links;
      }
    }
    assert after.entries[..|db.entries|] == mid.entries[..|db.entries|];
  }

  lemma {:induction false} PlanExtends(db: Db, t: Trip, plan: seq<Funded>, stays: set<int>)
    requires Bounded(db)
    requires forall j :: 0 <= j < |plan| ==> plan[j].stay.row.id in stays
    ensures Extends(db, PostPlan(db, t, plan), stays)
  {
    if plan != [] {
      hide Bounded, Extends;
      var front, last := plan[..|plan| - 1], plan[|plan| - 1];
      PlanExtends(db, t, front, stays);
      PlanShape(db, t, front);
      ExtendedByDraws(db, PostPlan(db, t, front), t, last.stay.row, last.draws, stays);
    }
  }

  lemma ForgottenEntries(db: Db, after: Db, stays: set<int>, dead: set<int>, dead': set<int>)
    requires KeysFit(db) && Extends(db, after, stays)
    requires dead == EntriesLinkedTo(db, stays) && dead' == EntriesLinkedTo(after, stays)
    ensures Rows.Drop(EntryID, after.entries, dead') == Rows.Drop(EntryID, db.entries, dead)
  {
    var added := after.entries[|db.entries|..];
    assert after.entries == db.entries + added;
    forall i | 0 <= i < |added| ensures EntryID(added[i]) in dead' {
      assert added[i] == after.entries[|db.entries| + i];
      var s :| s in stays && Link(s, added[i].id) in after.links;
    }
    forall i | 0 <= i < |db.entries| ensures EntryID(db.entries[i]) in dead <==> EntryID(db.entries[i]) in dead' {
      var id := db.entries[i].id;
      assert id < db.nextEntry;
      assert id in dead ==> id in dead';
    }
    hide EntriesLinkedTo, Extends, KeysFit;
    Rows.DropConcat(EntryID, db.entries, added, dead');
    Rows.DropSame(EntryID, db.entries, dead, dead');
    Rows.DropAll(EntryID, added, dead');
  }

  lemma ForgottenLinks(db: Db, after: Db, stays: set<int>, dead: set<int>, dead': set<int>)
    requires Bounded(db) && Extends(db, after, stays)
    requires dead == EntriesLinkedTo(db, stays) && dead' == EntriesLinkedTo(after, stays)
    ensures LinksToOthers(after.links, dead') == LinksToOthers(db.links, dead)
  {
    forall l ensures l in LinksToOthers(after.links, dead') <==> l in LinksToOthers(db.links, dead) {
      if l in db.links {
        assert l.entry in dead' ==> l.entry in dead;
      }
    }
  }

  lemma UnbookForgets(db: Db, after: Db, trip: int)
    requires KeysFit(db) && Bounded(db) && Extends(db, after, StayIDsOf(db.stays, trip))
    requires after == db.(entries := after.entries, links := after.links, nextEntry := after.nextEntry)
    ensures Unbook(after, trip) == Unbook(db, trip).(nextEntry := after.nextEntry)
  {
    var stays := StayIDsOf(db.stays, trip);
    ForgottenEntries(db, after, stays, EntriesLinkedTo(db, stays), EntriesLinkedTo(after, stays));
    ForgottenLinks(db, after, stays, EntriesLinkedTo(db, stays), EntriesLinkedTo(after, stays));
  }

  lemma PlanStaysOwn(db: Db, trip: int, plan: seq<Funded>)
    requires FundsTrip(db, trip, plan)
    ensures forall j :: 0 <= j < |plan| ==> plan[j].stay.row.id in StayIDsOf(db.stays, trip)
  {
    hide View, Covers;
  }

  /** Unbooking takes a booking back: it leaves what unbooking before the booking would have left,
      apart from the identity counter. A trip with no links before is restored exactly. */
  lemma UnbookUndoesBooking(db: Db, trip: int)
    requires Consistent(db) && BookOnce(db, trip).Ok?
    ensures var after := BookOnce(db, trip).value;
            && Unbook(after, trip) == Unbook(db, trip).(nextEntry := after.nextEntry)
            && (EntriesLinkedTo(db, StayIDsOf(db.stays, trip)) == {} ==>
              Unbook(after, trip) == db.(nextEntry := after.nextEntry))
  {
    hide View, Plan, PostPlan, PoolOf, Covers, FindTrip, ListStays;
    var t, plan := FindTrip(db.trips, trip).value, TripPlan(db, trip);
    TripPlanExact(db, trip);
    ConsistentIsBounded(db);
    PlanShape(db, t, plan);
    PlanStaysOwn(db, trip, plan);
    hide FundsTrip, Consistent, StayIDsOf, EntriesLinkedTo;
    PlanExtends(db, t, plan, StayIDsOf(db.stays, trip));
    UnbookForgets(db, PostPlan(db, t, plan), trip);
    if EntriesLinkedTo(db, StayIDsOf(db.stays, trip)) == {} {
      NothingToUnbook(db, trip);
    }
  }

  lemma NothingToUnbook(db: Db, trip: int)
    requires EntriesLinkedTo(db, StayIDsOf(db.stays, trip)) == {}
    ensures Unbook(db, trip) == db
  {
    hide StayIDsOf, EntriesLinkedTo;
    Rows.DropNone(EntryID, db.entries, {});
    assert LinksToOthers(db.links, {}) == db.links;
  }

  // ----- Deleting removes exactly what was linked to the target

  /** After deleting the entries linked to some stays, the entries left are those that were not linked
      to them, and nothing is left linked to them. */
  lemma DeleteLinkedExact(db: Db, own: set<int>)
    requires Consistent(db)
    ensures var after := DeleteEntries(db, EntriesLinkedTo(db, own));
            && (forall e :: e in after.entries <==>
              e in db.entries && forall s :: s in own ==> Link(s, e.id) !in db.links)
            && (forall l :: l in after.links <==> l in db.links && l.stay !in own)
  {
    var dead := EntriesLinkedTo(db, own);
    Rows.DropExact(EntryID, db.entries, dead);
    forall e | e in db.entries ensures e.id in dead <==> exists s :: s in own && Link(s, e.id) in db.links {
      if s :| s in own && Link(s, e.id) in db.links {
        assert Link(s, e.id).entry in dead;
      }
      if e.id in dead {
        var l :| l in db.links && l.stay in own && l.entry == e.id;
        assert l == Link(l.stay, e.id);
      }
    }
    forall l ensures l in LinksToOthers(db.links, dead) <==> l in db.links && l.stay !in own {
      if l in db.links && l.entry in dead {
        var m :| m in db.links && m.stay in own && m.entry == l.entry;
      }
    }
  }

  lemma StayIDsExact(db: Db, trip: int)
    requires KeysFit(db)
    ensures forall s :: s in db.stays ==> (s.id in StayIDsOf(db.stays, trip) <==> s.trip == trip)
  {
    forall s | s in db.stays && s.id in StayIDsOf(db.stays, trip) ensures s.trip == trip {
      var r :| r in db.stays && r.trip == trip && r.id == s.id;
      var i :| 0 <= i < |db.stays| && db.stays[i] == s;
      var j :| 0 <= j < |db.stays| && db.stays[j] == r;
      Rows.SameRow(StayID, db.stays, i, j);
    }
  }

  /** Deleting a trip removes the trip, its stays, their links, and exactly the entries that were linked
      to those stays; unbooking removes the entries and links only. */
  lemma DeleteTripExact(db: Db, trip: int)
    requires Consistent(db)
    ensures var own, after := StayIDsOf(db.stays, trip), DeleteTrip(db, trip);
            && (forall e :: e in after.entries <==>
              e in db.entries && forall s :: s in own ==> Link(s, e.id) !in db.links)
            && (forall l :: l in after.links <==> l in db.links && l.stay !in own)
            && (forall s :: s in after.stays <==> s in db.stays && s.trip != trip)
            && (forall t :: t in after.trips <==> t in db.trips && t.id != trip)
            && Unbook(db, trip) == db.(entries := after.entries, links := after.links)
  {
    var own := StayIDsOf(db.stays, trip);
    DeleteLinkedExact(db, own);
    StayIDsExact(db, trip);
    Rows.DropExact(StayID, db.stays, own);
    Rows.DropExact(TripID, db.trips, {trip});
    forall l ensures l in DeleteTrip(db, trip).links <==> l in Unbook(db, trip).links {}
  }

  lemma DeleteStayExact(db: Db, stay: int)
    requires Consistent(db)
    ensures var after := DeleteStay(db, stay);
            && (forall e :: e in after.entries <==> e in db.entries && Link(stay, e.id) !in db.links)
            && (forall l :: l in after.links <==> l in db.links && l.stay != stay)
            && (forall s :: s in after.stays <==> s in db.stays && s.id != stay)
  {
    DeleteLinkedExact(db, {stay});
    Rows.DropExact(StayID, db.stays, {stay});
  }

  /** Why the entries go first: once the cascade has taken the links away, deleting the trip's entries
      finds none of them, and its usage rows stay in the ledger. */
  lemma CascadeFirstStrandsEntries(db: Db, trip: int)
    requires Consistent(db)
    ensures Unbook(DeleteTripRow(db, trip), trip).entries == db.entries
  {
    var mid := DeleteTripRow(db, trip);
    var own := StayIDsOf(db.stays, trip);
    Rows.DropExact(StayID, db.stays, own);
    forall s | s in mid.stays ensures s.trip != trip {
      assert s.trip == trip ==> s.id in own;
    }
    assert StayIDsOf(mid.stays, trip) == {};
    assert EntriesLinkedTo(mid, {}) == {};
    Rows.DropNone(EntryID, db.entries, {});
  }
}
