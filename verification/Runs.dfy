/** The ledger as a state machine: any sequence of requests keeps the schema's invariants. */
module Runs {
  import opened Types
  import opened Booking
  import opened Schema
  import opened Lifecycle
  import opened Import

  /** Everything that is asked of the store. A refused request changes nothing. */
  datatype Request =
    | BookTrip(trip: int)
    | UnbookTrip(trip: int)
    | DeleteTripRequest(trip: int)
    | DeleteStayRequest(stay: int)
    | DeleteEntryRequest(entry: int)
    | PostEntry(e: Entry)
    | CreateTrip(t: Trip)
    | CreateStay(s: StayRow)
    | ImportBookedTrip(t: Trip, stays: seq<ImportedStay>)

  function Apply(db: Db, r: Request): Db {
    match r
    case BookTrip(trip) => (match BookOnce(db, trip) case Ok(after) => after case Err(_) => db)
    case UnbookTrip(trip) => Unbook(db, trip)
    case DeleteTripRequest(trip) => DeleteTrip(db, trip)
    case DeleteStayRequest(stay) => DeleteStay(db, stay)
    case DeleteEntryRequest(entry) => DeleteEntry(db, entry)
    case PostEntry(e) => AddEntry(db, e)
    case CreateTrip(t) => (match AddTrip(db, t) case Some(after) => after case None => db)
    case CreateStay(s) => (match AddStay(db, s) case Some(after) => after case None => db)
    case ImportBookedTrip(t, stays) => (match ImportTrip(db, t, stays) case Ok((after, _)) => after case Err(_) => db)
  }

  function Run(db: Db, rs: seq<Request>): Db {
    if rs == [] then db else Apply(Run(db, rs[..|rs| - 1]), rs[|rs| - 1])
  }

  lemma AddEntryKeeps(db: Db, e: Entry)
    requires Consistent(db)
    ensures Consistent(AddEntry(db, e))
  {
    var after := AddEntry(db, e);
    ConsistentIsBounded(db);
    forall l | l in after.links ensures HasStay(after, l.stay) && HasUsage(after.entries, l.entry) {
      assert HasStay(db, l.stay);
      var i :| 0 <= i < |db.entries| && db.entries[i].id == l.entry
               && db.entries[i].kind == Usage && db.entries[i].used > 0;
      assert after.entries[i] == db.entries[i];
    }
    forall i | 0 <= i < |after.stays|
      ensures after.stays[i].points > 0 && HasTrip(after, after.stays[i].trip)
              && View(after, after.stays[i]).entryPoints <= after.stays[i].points
    {
      assert HasTrip(db, db.stays[i].trip);
      assert Link(db.stays[i].id, db.nextEntry) !in db.links;
      assert after.entries[..|after.entries| - 1] == db.entries;
      assert View(db, db.stays[i]).entryPoints <= db.stays[i].points;
    }
  }

  lemma AddStayKeeps(db: Db, s: StayRow)
    requires Consistent(db) && AddStay(db, s).Some?
    ensures Consistent(AddStay(db, s).value)
    ensures !View(AddStay(db, s).value, s.(id := db.nextStay)).Booked()
  {
    var after := AddStay(db, s).value;
    FindTripExact(db.trips, s.trip);
    forall l | l in after.links
      ensures HasStay(after, l.stay) && HasUsage(after.entries, l.entry) && l.stay != db.nextStay
    {
      var i :| 0 <= i < |db.stays| && db.stays[i].id == l.stay;
      assert after.stays[i] == db.stays[i];
      assert HasUsage(db.entries, l.entry);
    }
    NoLinks(db.entries, db.links, db.nextStay);
    forall i | 0 <= i < |after.stays|
      ensures after.stays[i].points > 0 && HasTrip(after, after.stays[i].trip)
              && View(after, after.stays[i]).entryPoints <= after.stays[i].points
    {
      if i < |db.stays| {
        assert HasTrip(db, db.stays[i].trip);
        assert View(db, db.stays[i]).entryPoints <= db.stays[i].points;
      } else {
        assert HasTrip(db, s.trip);
      }
    }
  }

  lemma ApplyKeeps(db: Db, r: Request)
    requires Consistent(db)
    ensures Consistent(Apply(db, r))
  {
    hide Consistent, BookOnce, ImportTrip, AddTrip, AddStay, AddEntry, DeleteEntries, DeleteStayRows, DeleteTripRow;
    match r
    case BookTrip(trip) =>
      if BookOnce(db, trip).Ok? { BookOnceKeeps(db, trip); }
    case UnbookTrip(trip) =>
      DeleteEntriesKeeps(db, EntriesLinkedTo(db, StayIDsOf(db.stays, trip)));
    case DeleteTripRequest(trip) =>
      DeleteEntriesKeeps(db, EntriesLinkedTo(db, StayIDsOf(db.stays, trip)));
      DeleteTripRowKeeps(Unbook(db, trip), trip);
    case DeleteStayRequest(stay) =>
      DeleteEntriesKeeps(db, EntriesLinkedTo(db, {stay}));
      DeleteStayRowsKeeps(DeleteEntries(db, EntriesLinkedTo(db, {stay})), {stay});
    case DeleteEntryRequest(entry) =>
      DeleteEntriesKeeps(db, {entry});
    case PostEntry(e) =>
      AddEntryKeeps(db, e);
    case CreateTrip(t) =>
      if AddTrip(db, t).Some? { AddTripKeeps(db, t); }
    case CreateStay(s) =>
      if AddStay(db, s).Some? { AddStayKeeps(db, s); }
    case ImportBookedTrip(t, stays) =>
      if ImportTrip(db, t, stays).Ok? { ImportBooks(db, t, stays); }
  }

  /** In every reachable state each link names a live stay and a live usage entry, no entry is linked
      to two stays, and no stay is funded beyond its points. */
  lemma {:induction false} RunKeeps(db: Db, rs: seq<Request>)
    requires Consistent(db)
    ensures Consistent(Run(db, rs))
  {
    if rs != [] {
      RunKeeps(db, rs[..|rs| - 1]);
      ApplyKeeps(Run(db, rs[..|rs| - 1]), rs[|rs| - 1]);
    }
  }

  const EMPTY_DB := Db([], [], [], [], {}, 1, 1, 1)

  lemma RunFromEmpty(contracts: seq<Contract>, rs: seq<Request>)
    requires forall i, j :: 0 <= i < j < |contracts| ==> contracts[i].id != contracts[j].id
    ensures Consistent(Run(EMPTY_DB.(contracts := contracts), rs))
  {
    RunKeeps(EMPTY_DB.(contracts := contracts), rs);
  }
}
