/** Importing a trip that was booked by hand: ImportBookedTrip's decision and effect. */
module Import {
  import opened Types
  import opened Booking
  import opened Schema
  import opened Lifecycle
  import Rows

  /** A stay to import, and the ids of the existing usage entries that paid for it. */
  datatype ImportedStay = ImportedStay(stay: StayRow, entryIDs: seq<int>)

  datatype ImportError =
    | ImportInvalid | NoEntries | EntryNotFound | EntryNotUsage | EntryLinked
    | DuplicateEntry | PointsMismatch | ConstraintViolation

  // ----- Validation

  predicate FieldsFit(s: StayRow) {
    s.checkOut.day - s.checkIn.day >= 1 && s.nights == s.checkOut.day - s.checkIn.day && s.points >= 0
  }

  function FindEntry(entries: seq<Entry>, id: int): Option<Entry> {
    if entries == [] then None
    else if entries[|entries| - 1].id == id then Some(entries[|entries| - 1])
    else FindEntry(entries[..|entries| - 1], id)
  }

  predicate IsLinked(links: set<Link>, entry: int) {
    exists l :: l in links && l.entry == entry
  }

  /** The first fault of one listed entry id, given the ids seen before it. */
  function EntryFault(db: Db, seen: set<int>, id: int): Option<ImportError> {
    if id in seen then Some(DuplicateEntry)
    else
      match FindEntry(db.entries, id)
      case None => Some(EntryNotFound)
      case Some(e) =>
        if e.kind != Usage || e.used <= 0 then Some(EntryNotUsage)
        else if IsLinked(db.links, id) then Some(EntryLinked)
        else None
  }

  datatype Scan = Fault(error: ImportError) | Clean(seen: set<int>, sum: int)

  /** The scan of one stay's entry ids, in order. */
  function ScanIDs(db: Db, seen: set<int>, ids: seq<int>): Scan {
    if ids == [] then Clean(seen, 0)
    else
      match ScanIDs(db, seen, ids[..|ids| - 1])
      case Fault(e) => Fault(e)
      case Clean(seen', sum) =>
        var id := ids[|ids| - 1];
        match EntryFault(db, seen', id)
        case Some(e) => Fault(e)
        case None => Clean(seen' + {id}, sum + FindEntry(db.entries, id).value.used)
  }

  function ScanStay(db: Db, seen: set<int>, imp: ImportedStay): Scan {
    if |imp.entryIDs| == 0 then Fault(NoEntries)
    else
      match ScanIDs(db, seen, imp.entryIDs)
      case Fault(e) => Fault(e)
      case Clean(seen', sum) => if sum != imp.stay.points then Fault(PointsMismatch) else Clean(seen', sum)
  }

  function ScanStays(db: Db, stays: seq<ImportedStay>): Scan {
    if stays == [] then Clean({}, 0)
    else
      match ScanStays(db, stays[..|stays| - 1])
      case Fault(e) => Fault(e)
      case Clean(seen, _) => ScanStay(db, seen, stays[|stays| - 1])
  }

  // ----- Writing

  function LinksFor(stay: int, ids: seq<int>): set<Link> {
    set id | id in ids :: Link(stay, id)
  }

  function WriteStays(db: Db, trip: int, stays: seq<ImportedStay>): Option<Db> {
    if stays == [] then Some(db)
    else
      var imp := stays[|stays| - 1];
      match WriteStays(db, trip, stays[..|stays| - 1])
      case None => None
      case Some(mid) =>
        match AddStay(mid, imp.stay.(trip := trip))
        case None => None
        case Some(after) => Some(after.(links := after.links + LinksFor(mid.nextStay, imp.entryIDs)))
  }

  function AtLeastOneNight(t: Trip): Trip {
    if t.minNights < 1 then t.(minNights := 1) else t
  }

  /** The outcome of an import: the database after it and the new trip's id, or the first fault. */
  function ImportTrip(db: Db, t: Trip, stays: seq<ImportedStay>): Result<(Db, int), ImportError> {
    if |stays| == 0 then Err(ImportInvalid)
    else if t.endDate.day < t.startDate.day then Err(ImportInvalid)
    else if exists i :: 0 <= i < |stays| && !FieldsFit(stays[i].stay) then Err(ImportInvalid)
    else
      match ScanStays(db, stays)
      case Fault(e) => Err(e)
      case Clean(_, _) =>
        match AddTrip(db, AtLeastOneNight(t))
        case None => Err(ConstraintViolation)
        case Some(mid) =>
          match WriteStays(mid, db.nextTrip, stays)
          case None => Err(ConstraintViolation)
          case Some(after) => Ok((after, db.nextTrip))
  }

  // ----- When an import is accepted

  predicate Payable(db: Db, id: int) {
    && FindEntry(db.entries, id).Some? && FindEntry(db.entries, id).value.kind == Usage
    && FindEntry(db.entries, id).value.used > 0 && !IsLinked(db.links, id)
  }

  function UsedBy(db: Db, ids: seq<int>): int {
    if ids == [] then 0
    else
      UsedBy(db, ids[..|ids| - 1])
      + match FindEntry(db.entries, ids[|ids| - 1]) { case Some(e) => e.used case None => 0 }
  }

  ghost predicate NoRepeats(ids: seq<int>) {
    forall i, j :: 0 <= i < j < |ids| ==> ids[i] != ids[j]
  }

  /** Each stay is paid for, to the point, by unlinked usage entries that nothing else in the import
      claims. */
  ghost predicate PaidFor(db: Db, stays: seq<ImportedStay>) {
    && (forall i :: 0 <= i < |stays| ==>
      && |stays[i].entryIDs| > 0 && NoRepeats(stays[i].entryIDs)
      && (forall id :: id in stays[i].entryIDs ==> Payable(db, id))
      && UsedBy(db, stays[i].entryIDs) == stays[i].stay.points)
    && (forall i, j, id :: 0 <= i < j < |stays| && id in stays[i].entryIDs ==> id !in stays[j].entryIDs)
  }

  function IDSet(ids: seq<int>): set<int> {
    set id | id in ids
  }

  ghost predicate Claimable(db: Db, seen: set<int>, ids: seq<int>) {
    NoRepeats(ids) && forall id :: id in ids ==> id !in seen && Payable(db, id)
  }

  lemma ClaimableLast(db: Db, seen: set<int>, front: seq<int>, last: int)
    ensures Claimable(db, seen, front + [last]) <==>
            Claimable(db, seen, front) && last !in seen + IDSet(front) && Payable(db, last)
    ensures IDSet(front + [last]) == IDSet(front) + {last}
  {
    var ids := front + [last];
    assert ids[|front|] == last;
    if Claimable(db, seen, ids) {
      forall i, j | 0 <= i < j < |front| ensures front[i] != front[j] {
        assert ids[i] != ids[j];
      }
      forall i | 0 <= i < |front| ensures front[i] != last {
        assert ids[i] != ids[|front|];
      }
    }
  }

  lemma NothingToClaim(db: Db, seen: set<int>)
    ensures Claimable(db, seen, [])
  {
  }

  lemma {:induction false} ScanIDsExact(db: Db, seen: set<int>, ids: seq<int>)
    ensures ScanIDs(db, seen, ids).Clean? <==> Claimable(db, seen, ids)
    ensures ScanIDs(db, seen, ids).Clean? ==> ScanIDs(db, seen, ids) == Clean(seen + IDSet(ids), UsedBy(db, ids))
  {
    hide Claimable;
    if ids == [] {
      NothingToClaim(db, seen);
      assert seen + IDSet(ids) == seen;
    } else {
      var front, last := ids[..|ids| - 1], ids[|ids| - 1];
      ScanIDsExact(db, seen, front);
      assert ids == front + [last];
      ClaimableLast(db, seen, front, last);
      assert seen + IDSet(ids) == seen + IDSet(front) + {last};
    }
  }

  function ClaimedBy(stays: seq<ImportedStay>): set<int> {
    set i, id | 0 <= i < |stays| && id in stays[i].entryIDs :: id
  }

  lemma ClaimedByLast(front: seq<ImportedStay>, last: ImportedStay)
    ensures ClaimedBy(front + [last]) == ClaimedBy(front) + IDSet(last.entryIDs)
  {
    var stays := front + [last];
    assert stays[|front|] == last;
    forall id ensures id in ClaimedBy(stays) <==> id in ClaimedBy(front) + IDSet(last.entryIDs) {
      if i :| 0 <= i < |front| && id in front[i].entryIDs {
        assert id in stays[i].entryIDs;
      }
      if i :| 0 <= i < |stays| && id in stays[i].entryIDs {
        assert i < |front| ==> id in front[i].entryIDs;
      }
    }
  }

  lemma PaidForFront(db: Db, front: seq<ImportedStay>, last: ImportedStay)
    requires PaidFor(db, front + [last])
    ensures PaidFor(db, front)
  {
    hide Payable, UsedBy;
    var stays := front + [last];
    assert forall i :: 0 <= i < |front| ==> front[i] == stays[i];
  }

  lemma {:induction false} ScanStaysExact(db: Db, stays: seq<ImportedStay>)
    ensures ScanStays(db, stays).Clean? <==> PaidFor(db, stays)
    ensures ScanStays(db, stays).Clean? ==> ScanStays(db, stays).seen == ClaimedBy(stays)
  {
    hide ScanIDs, UsedBy, Payable, ClaimedBy, PaidFor;
    if stays == [] {
      NothingClaimed(db);
    } else {
      var front, last := stays[..|stays| - 1], stays[|stays| - 1];
      ScanStaysExact(db, front);
      assert stays == front + [last];
      if PaidFor(db, stays) {
        PaidForFront(db, front, last);
      }
      if PaidFor(db, front) {
        ScanIDsExact(db, ClaimedBy(front), last.entryIDs);
        ClaimedByLast(front, last);
        PaidForLast(db, front, last);
      }
    }
  }

  lemma NothingClaimed(db: Db)
    ensures PaidFor(db, []) && ClaimedBy([]) == {}
  {
  }

  lemma PaidForLast(db: Db, front: seq<ImportedStay>, last: ImportedStay)
    requires PaidFor(db, front)
    ensures PaidFor(db, front + [last]) <==>
            && |last.entryIDs| > 0 && NoRepeats(last.entryIDs)
            && (forall id :: id in last.entryIDs ==> id !in ClaimedBy(front) && Payable(db, id))
            && UsedBy(db, last.entryIDs) == last.stay.points
  {
    var stays := front + [last];
    assert stays[|front|] == last;
    if PaidFor(db, stays) {
      forall i, id | 0 <= i < |front| && id in front[i].entryIDs ensures id !in last.entryIDs {
        assert stays[i] == front[i];
      }
      assert forall id :: id in last.entryIDs ==> id in stays[|front|].entryIDs;
    }
  }

  lemma {:induction false} UsedByPositive(db: Db, ids: seq<int>)
    requires forall id :: id in ids ==> Payable(db, id)
    ensures UsedBy(db, ids) >= 0 && (ids != [] ==> UsedBy(db, ids) > 0)
  {
    if ids != [] {
      assert ids == ids[..|ids| - 1] + [ids[|ids| - 1]];
      UsedByPositive(db, ids[..|ids| - 1]);
      assert Payable(db, ids[|ids| - 1]);
    }
  }

  // ----- What the writes do

  function ImportedRow(s: StayRow, trip: int, id: int): StayRow {
    s.(trip := trip, id := id)
  }

  /** The imported rows follow the old ones, each linked to its entries; nothing else changed. */
  ghost predicate Imported(db: Db, after: Db, trip: int, stays: seq<ImportedStay>) {
    && after == db.(stays := after.stays, links := after.links, nextStay := db.nextStay + |stays|)
    && |after.stays| == |db.stays| + |stays|
    && (forall i :: 0 <= i < |db.stays| ==> after.stays[i] == db.stays[i])
    && (forall k :: |db.stays| <= k < |after.stays| ==>
      after.stays[k] == ImportedRow(stays[k - |db.stays|].stay, trip, db.nextStay + k - |db.stays|))
    && (forall l :: l in after.links <==> l in db.links || ClaimedLink(db, stays, l))
  }

  ghost predicate ClaimedLink(db: Db, stays: seq<ImportedStay>, l: Link) {
    0 <= l.stay - db.nextStay < |stays| && l.entry in stays[l.stay - db.nextStay].entryIDs
  }

  lemma LinkedFor(stay: int, ids: seq<int>, id: int)
    ensures Link(stay, id) in LinksFor(stay, ids) <==> id in ids
  {
  }

  lemma OnlyLinksFor(stay: int, ids: seq<int>, l: Link)
    ensures l in LinksFor(stay, ids) ==> l.stay == stay
  {
  }

  lemma {:induction false} WriteStaysExact(db: Db, trip: int, stays: seq<ImportedStay>)
    requires FindTrip(db.trips, trip).Some?
    requires forall i :: 0 <= i < |stays| ==> FieldsFit(stays[i].stay) && stays[i].stay.points > 0
    ensures WriteStays(db, trip, stays).Some? && Imported(db, WriteStays(db, trip, stays).value, trip, stays)
  {
    hide FindTrip, LinksFor;
    if stays != [] {
      var front, last := stays[..|stays| - 1], stays[|stays| - 1];
      WriteStaysExact(db, trip, front);
      var mid, after := WriteStays(db, trip, front).value, WriteStays(db, trip, stays).value;
      forall l ensures l in after.links <==> l in db.links || ClaimedLink(db, stays, l) {
        OnlyLinksFor(mid.nextStay, last.entryIDs, l);
        if l.stay == mid.nextStay {
          LinkedFor(mid.nextStay, last.entryIDs, l.entry);
        }
      }
    }
  }

  lemma FindEntryLast(entries: seq<Entry>, id: int)
    requires Rows.Ascending(EntryID, entries) && entries != []
    requires entries[|entries| - 1].id == id
    ensures FindEntry(entries[..|entries| - 1], id).None?
  {
    FindEntryExact(entries[..|entries| - 1], id);
    forall i | 0 <= i < |entries| - 1 ensures entries[i].id != id {
      assert EntryID(entries[i]) < EntryID(entries[|entries| - 1]);
    }
  }

  lemma {:induction false} FindEntryExact(entries: seq<Entry>, id: int)
    ensures FindEntry(entries, id).Some? ==>
      FindEntry(entries, id).value in entries && FindEntry(entries, id).value.id == id
    ensures FindEntry(entries, id).None? <==> forall i :: 0 <= i < |entries| ==> entries[i].id != id
  {
    if entries != [] && entries[|entries| - 1].id != id {
      FindEntryExact(entries[..|entries| - 1], id);
    }
  }

  /** What is wrong with one listed entry id: that it was listed before, or else that it is no entry's, or
      else that its entry is no usage, or else that its entry is linked already. */
  lemma EntryFaultExact(db: Db, seen: set<int>, id: int, e: Entry)
    requires Rows.Ascending(EntryID, db.entries)
    ensures EntryFault(db, seen, id) == Some(DuplicateEntry) <==> id in seen
    ensures EntryFault(db, seen, id) == Some(EntryNotFound) <==>
              id !in seen && forall i :: 0 <= i < |db.entries| ==> db.entries[i].id != id
    ensures id !in seen && e in db.entries && e.id == id ==>
              && (EntryFault(db, seen, id) == Some(EntryNotUsage) <==> e.kind != Usage || e.used <= 0)
              && (EntryFault(db, seen, id) == Some(EntryLinked) <==>
                e.kind == Usage && e.used > 0 && exists stay :: Link(stay, id) in db.links)
  {
    FindEntryExact(db.entries, id);
    if e in db.entries && e.id == id {
      var i, j :| 0 <= i < |db.entries| && db.entries[i] == e
                  && 0 <= j < |db.entries| && db.entries[j] == FindEntry(db.entries, id).value;
      Rows.SameRow(EntryID, db.entries, i, j);
    }
    assert IsLinked(db.links, id) ==> exists stay :: Link(stay, id) in db.links by {
      if IsLinked(db.links, id) {
        var l :| l in db.links && l.entry == id;
        assert Link(l.stay, id) in db.links;
      }
    }
  }

  lemma {:induction false} IDsFault(db: Db, seen: set<int>, ids: seq<int>)
    ensures ScanIDs(db, seen, ids).Fault? ==>
              ScanIDs(db, seen, ids).error in {DuplicateEntry, EntryNotFound, EntryNotUsage, EntryLinked}
  {
    if ids != [] {
      IDsFault(db, seen, ids[..|ids| - 1]);
    }
  }

  /** A stay without entries is refused as such, and one whose entries are all acceptable but come to something
      else than its points as a mismatch. */
  lemma StayFaultExact(db: Db, seen: set<int>, imp: ImportedStay)
    ensures ScanStay(db, seen, imp) == Fault(NoEntries) <==> |imp.entryIDs| == 0
    ensures ScanStay(db, seen, imp) == Fault(PointsMismatch) <==>
              |imp.entryIDs| > 0 && Claimable(db, seen, imp.entryIDs) && UsedBy(db, imp.entryIDs) != imp.stay.points
  {
    hide ScanIDs, UsedBy, Claimable;
    IDsFault(db, seen, imp.entryIDs);
    ScanIDsExact(db, seen, imp.entryIDs);
  }

  /** Linking one more entry to a stay adds its points. */
  lemma {:induction false} LinkAdds(entries: seq<Entry>, links: set<Link>, stay: int, id: int)
    requires Rows.Ascending(EntryID, entries) && Link(stay, id) !in links
    ensures TotalUsed(LinkedEntries(entries, links + {Link(stay, id)}, stay)) ==
            TotalUsed(LinkedEntries(entries, links, stay))
            + match FindEntry(entries, id) { case Some(e) => e.used case None => 0 }
  {
    if entries != [] {
      var front := entries[..|entries| - 1];
      LinkAdds(front, links, stay, id);
      if entries[|entries| - 1].id == id {
        FindEntryLast(entries, id);
      }
    }
  }

  lemma {:induction false} LinksAdd(db: Db, links: set<Link>, stay: int, ids: seq<int>)
    requires Rows.Ascending(EntryID, db.entries) && NoRepeats(ids)
    requires forall id :: id in ids ==> Link(stay, id) !in links
    ensures TotalUsed(LinkedEntries(db.entries, links + LinksFor(stay, ids), stay)) ==
            TotalUsed(LinkedEntries(db.entries, links, stay)) + UsedBy(db, ids)
  {
    if ids == [] {
      assert links + LinksFor(stay, ids) == links;
    } else {
      var front, last := ids[..|ids| - 1], ids[|ids| - 1];
      assert ids == front + [last];
      LinksAdd(db, links, stay, front);
      assert last !in front;
      LinkAdds(db.entries, links + LinksFor(stay, front), stay, last);
      assert links + LinksFor(stay, ids) == (links + LinksFor(stay, front)) + {Link(stay, last)};
    }
  }

  lemma {:induction false} NoLinks(entries: seq<Entry>, links: set<Link>, stay: int)
    requires forall l :: l in links ==> l.stay != stay
    ensures LinkedEntries(entries, links, stay) == []
  {
    if entries != [] {
      NoLinks(entries[..|entries| - 1], links, stay);
    }
  }

  ghost predicate ReadsFunded(db: Db, row: StayRow) {
    View(db, row).Booked() && View(db, row).entryPoints == row.points
  }

  /** The view of an imported stay: booked, and funded exactly. */
  lemma ImportedView(db: Db, after: Db, trip: int, stays: seq<ImportedStay>, k: nat)
    requires KeysFit(db) && LinksFit(db) && Imported(db, after, trip, stays) && PaidFor(db, stays)
    requires |db.stays| <= k < |after.stays|
    ensures ReadsFunded(after, after.stays[k])
  {
    hide HasUsage, NotOverfunded, LinksFor, Payable, UsedBy, LinkedEntries;
    var i := k - |db.stays|;
    var stay, ids := db.nextStay + i, stays[i].entryIDs;
    forall l | l in db.links ensures l.stay != stay {
      assert HasStay(db, l.stay);
    }
    NoLinks(db.entries, db.links, stay);
    LinksAdd(db, db.links, stay, ids);
    forall e ensures Link(stay, e) in after.links <==> Link(stay, e) in db.links + LinksFor(stay, ids) {
      assert ClaimedLink(db, stays, Link(stay, e)) <==> e in ids;
      LinkedFor(stay, ids, e);
    }
    OtherLinks(db.entries, after.links, db.links + LinksFor(stay, ids), stay);
    UsedByPositive(db, ids);
    var linked := LinkedEntries(after.entries, after.links, stay);
    assert TotalUsed(linked) > 0;
    assert linked != [];
  }

  lemma OldView(db: Db, after: Db, trip: int, stays: seq<ImportedStay>, row: StayRow)
    requires Imported(db, after, trip, stays) && row.id < db.nextStay
    ensures View(after, row) == View(db, row)
  {
    forall e ensures Link(row.id, e) in after.links <==> Link(row.id, e) in db.links {
      assert !ClaimedLink(db, stays, Link(row.id, e));
    }
    OtherLinks(db.entries, after.links, db.links, row.id);
  }

  lemma ImportedLinksFit(db: Db, after: Db, trip: int, stays: seq<ImportedStay>)
    requires KeysFit(db) && LinksFit(db) && Imported(db, after, trip, stays) && PaidFor(db, stays)
    ensures LinksFit(after)
  {
    forall l | l in after.links ensures HasStay(after, l.stay) && HasUsage(after.entries, l.entry) {
      if l in db.links {
        var i :| 0 <= i < |db.stays| && db.stays[i].id == l.stay;
        assert after.stays[i].id == l.stay;
        assert HasUsage(db.entries, l.entry);
      } else {
        var i := l.stay - db.nextStay;
        assert after.stays[|db.stays| + i].id == l.stay;
        assert l.entry in stays[i].entryIDs;
        assert Payable(db, l.entry);
        FindEntryExact(db.entries, l.entry);
        var e := FindEntry(db.entries, l.entry).value;
        var j :| 0 <= j < |db.entries| && db.entries[j] == e;
      }
    }
    forall l, m | l in db.links && m in after.links && m !in db.links ensures l.entry != m.entry {
      assert m.entry in stays[m.stay - db.nextStay].entryIDs;
      assert Payable(db, m.entry);
    }
    forall l, m | l in after.links && m in after.links && l.entry == m.entry ensures l == m {
      if l !in db.links && m !in db.links {
        var i, j := l.stay - db.nextStay, m.stay - db.nextStay;
        assert l.entry in stays[i].entryIDs && m.entry in stays[j].entryIDs;
      }
    }
  }

  lemma ImportedKeeps(db: Db, after: Db, trip: int, stays: seq<ImportedStay>)
    requires Consistent(db) && Imported(db, after, trip, stays) && PaidFor(db, stays)
    requires HasTrip(db, trip) && forall i :: 0 <= i < |stays| ==> stays[i].stay.points > 0
    ensures Consistent(after)
  {
    ImportedLinksFit(db, after, trip, stays);
    forall i | 0 <= i < |after.stays|
      ensures after.stays[i].points > 0 && HasTrip(after, after.stays[i].trip)
              && View(after, after.stays[i]).entryPoints <= after.stays[i].points
    {
      if i < |db.stays| {
        assert HasTrip(db, db.stays[i].trip);
        OldView(db, after, trip, stays, db.stays[i]);
        assert View(db, db.stays[i]).entryPoints <= db.stays[i].points;
      } else {
        ImportedView(db, after, trip, stays, i);
      }
    }
    forall i, j | 0 <= i < j < |after.stays| ensures StayID(after.stays[i]) < StayID(after.stays[j]) {}
  }

  // ----- Main results about importing

  lemma AddTripKeeps(db: Db, t: Trip)
    requires Consistent(db) && AddTrip(db, t).Some?
    ensures Consistent(AddTrip(db, t).value) && HasTrip(AddTrip(db, t).value, db.nextTrip)
    ensures FindTrip(AddTrip(db, t).value.trips, db.nextTrip).Some?
  {
    var after := AddTrip(db, t).value;
    assert after.trips[|db.trips|].id == db.nextTrip;
    FindTripExact(after.trips, db.nextTrip);
    forall i | 0 <= i < |after.stays| ensures after.stays[i].points > 0 && HasTrip(after, after.stays[i].trip) {
      var j :| 0 <= j < |db.trips| && db.trips[j].id == db.stays[i].trip;
      assert after.trips[j] == db.trips[j];
    }
    forall l | l in after.links ensures HasStay(after, l.stay) && HasUsage(after.entries, l.entry) {
      assert HasStay(db, l.stay);
    }
    forall i | 0 <= i < |after.stays| ensures View(after, after.stays[i]).entryPoints <= after.stays[i].points {
      assert View(db, db.stays[i]).entryPoints <= db.stays[i].points;
    }
  }

  lemma PaidForPoints(db: Db, stays: seq<ImportedStay>)
    requires PaidFor(db, stays)
    ensures forall i :: 0 <= i < |stays| ==> stays[i].stay.points > 0
  {
    forall i | 0 <= i < |stays| ensures stays[i].stay.points > 0 {
      UsedByPositive(db, stays[i].entryIDs);
    }
  }

  lemma {:induction false} UsedBySame(db: Db, other: Db, ids: seq<int>)
    requires db.entries == other.entries
    ensures UsedBy(db, ids) == UsedBy(other, ids)
  {
    if ids != [] {
      UsedBySame(db, other, ids[..|ids| - 1]);
    }
  }

  lemma PaidForElsewhere(db: Db, other: Db, stays: seq<ImportedStay>)
    requires PaidFor(db, stays) && db.entries == other.entries && db.links == other.links
    ensures PaidFor(other, stays)
  {
    forall i | 0 <= i < |stays|
      ensures (forall id :: id in stays[i].entryIDs ==> Payable(other, id))
              && UsedBy(other, stays[i].entryIDs) == stays[i].stay.points
    {
      UsedBySame(db, other, stays[i].entryIDs);
      assert forall id :: id in stays[i].entryIDs ==> Payable(db, id);
    }
  }

  /** An import is accepted exactly when its fields fit and its stays are paid for by unlinked usage
      entries; in particular the writes themselves then never fail. */
  lemma ImportAccepts(db: Db, t: Trip, stays: seq<ImportedStay>)
    requires Consistent(db)
    ensures ImportTrip(db, t, stays).Ok? <==>
              && |stays| > 0 && t.startDate.day < t.endDate.day && t.minNights <= 30
              && (t.budgetOverride.Some? ==> t.budgetOverride.value >= 0)
              && (forall i :: 0 <= i < |stays| ==>
                var s := stays[i].stay;
                s.checkIn.day < s.checkOut.day && s.checkIn.day + s.nights == s.checkOut.day && s.points >= 0)
              && PaidFor(db, stays)
  {
    hide ScanStays, WriteStays, PaidFor, Imported, Consistent;
    ScanStaysExact(db, stays);
    if AddTrip(db, AtLeastOneNight(t)).Some? && PaidFor(db, stays) {
      AddTripKeeps(db, AtLeastOneNight(t));
      PaidForPoints(db, stays);
      if forall i :: 0 <= i < |stays| ==> FieldsFit(stays[i].stay) {
        WriteStaysExact(AddTrip(db, AtLeastOneNight(t)).value, db.nextTrip, stays);
      }
    }
  }

  lemma {:induction false} StaysFault(db: Db, stays: seq<ImportedStay>)
    ensures ScanStays(db, stays).Fault? ==> !ScanStays(db, stays).error.ImportInvalid?
    ensures ScanStays(db, stays).Fault? ==> !ScanStays(db, stays).error.ConstraintViolation?
  {
    hide ScanIDs;
    if stays != [] {
      var front, last := stays[..|stays| - 1], stays[|stays| - 1];
      StaysFault(db, front);
      if ScanStays(db, front).Clean? {
        IDsFault(db, ScanStays(db, front).seen, last.entryIDs);
      }
    }
  }

  /** What the code refuses before it looks at an entry, and what only the table's checks refuse: an import whose
      entries are in order, but that begins and ends on one day, asks for more than thirty nights at least, or
      has a negative budget. */
  lemma ImportRefuses(db: Db, t: Trip, stays: seq<ImportedStay>)
    requires Consistent(db)
    ensures ImportTrip(db, t, stays) == Err(ImportInvalid) <==>
              || |stays| == 0 || t.endDate.day < t.startDate.day
              || exists i :: 0 <= i < |stays| && !FieldsFit(stays[i].stay)
    ensures ImportTrip(db, t, stays) == Err(ConstraintViolation) <==>
              && |stays| > 0 && t.startDate.day <= t.endDate.day
              && (forall i :: 0 <= i < |stays| ==> FieldsFit(stays[i].stay)) && PaidFor(db, stays)
              && (t.startDate.day == t.endDate.day || t.minNights > 30
                  || (t.budgetOverride.Some? && t.budgetOverride.value < 0))
  {
    StaysFault(db, stays);
    ScanStaysExact(db, stays);
    ImportAccepts(db, t, stays);
    hide ScanStays, PaidFor, Consistent, WriteStays;
  }

  lemma ImportWrites(db: Db, t: Trip, stays: seq<ImportedStay>)
    requires Consistent(db) && ImportTrip(db, t, stays).Ok?
    ensures var mid, (after, trip) := AddTrip(db, AtLeastOneNight(t)), ImportTrip(db, t, stays).value;
            && mid.Some? && Consistent(mid.value) && trip == db.nextTrip && HasTrip(mid.value, trip)
            && PaidFor(mid.value, stays) && Imported(mid.value, after, trip, stays)
            && forall i :: 0 <= i < |stays| ==> stays[i].stay.points > 0
  {
    var mid := AddTrip(db, AtLeastOneNight(t)).value;
    ImportAccepts(db, t, stays);
    AddTripKeeps(db, AtLeastOneNight(t));
    PaidForPoints(db, stays);
    PaidForElsewhere(db, mid, stays);
    WriteStaysExact(mid, db.nextTrip, stays);
  }

  /** An accepted import adds the trip and its stays, links each stay to the entries listed for it and creates
      no entries; every imported stay reads as booked and fully funded, every older stay as before, and the
      schema's invariants still hold. */
  lemma ImportBooks(db: Db, t: Trip, stays: seq<ImportedStay>)
    requires Consistent(db) && ImportTrip(db, t, stays).Ok?
    ensures var (after, trip) := ImportTrip(db, t, stays).value;
            && Consistent(after) && after.entries == db.entries && after.nextEntry == db.nextEntry
            && trip == db.nextTrip && after.trips == db.trips + [t.(id := trip, minNights := Max(1, t.minNights))]
            && |after.stays| == |db.stays| + |stays| && after.stays[..|db.stays|] == db.stays
            && (forall k :: |db.stays| <= k < |after.stays| ==>
              && after.stays[k] == stays[k - |db.stays|].stay.(trip := trip, id := db.nextStay + k - |db.stays|)
              && ReadsFunded(after, after.stays[k]))
            && (forall k :: 0 <= k < |db.stays| ==> View(after, after.stays[k]) == View(db, db.stays[k]))
            && (forall l :: l in after.links <==>
              l in db.links
              || (0 <= l.stay - db.nextStay < |stays| && l.entry in stays[l.stay - db.nextStay].entryIDs))
  {
    hide ImportTrip, PaidFor, ReadsFunded, View;
    ImportWrites(db, t, stays);
    var mid := AddTrip(db, AtLeastOneNight(t)).value;
    var (after, trip) := ImportTrip(db, t, stays).value;
    ImportedKeeps(mid, after, trip, stays);
    forall k | |db.stays| <= k < |after.stays| ensures ReadsFunded(after, after.stays[k]) {
      ImportedView(mid, after, trip, stays, k);
    }
    forall k | 0 <= k < |db.stays| ensures View(after, after.stays[k]) == View(db, db.stays[k]) {
      OldView(mid, after, trip, stays, db.stays[k]);
      SameView(mid, db, db.stays[k]);
    }
    NewLinks(mid, after, trip, stays);
  }

  lemma SameView(db: Db, other: Db, row: StayRow)
    requires db.entries == other.entries && db.links == other.links
    ensures View(db, row) == View(other, row)
  {
  }

  lemma NewLinks(db: Db, after: Db, trip: int, stays: seq<ImportedStay>)
    requires Imported(db, after, trip, stays)
    ensures forall l :: l in after.links <==>
              l in db.links
              || (0 <= l.stay - db.nextStay < |stays| && l.entry in stays[l.stay - db.nextStay].entryIDs)
  {
  }
}
