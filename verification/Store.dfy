/** The store's operations, as they read and write the tables. */
module Store {
  import opened Types
  import opened Allocation
  import opened Accounting
  import opened Booking
  import opened Schema
  import opened Lifecycle
  import opened Import
  import Distribute
  import Rows
  import Runs
  import Sorting

  // ----- Proof steps of the booking and preview loops

  function Prepend(done: seq<Funded>, rest: Option<seq<Funded>>): Option<seq<Funded>> {
    match rest
    case None => None
    case Some(plan) => Some(done + plan)
  }

  lemma PlanSkips(p: Pool, legacyUsed: int, stays: seq<TripStay>, i: nat)
    requires i < |stays| && stays[i].Booked()
    ensures Plan(p, legacyUsed, stays[i..]) == Plan(p, legacyUsed, stays[i + 1..])
  {
    assert stays[i..][1..] == stays[i + 1..];
  }

  lemma PlanFunds(p: Pool, legacyUsed: int, stays: seq<TripStay>, i: nat, done: seq<Funded>)
    requires i < |stays| && !stays[i].Booked()
    ensures match FundStay(p, legacyUsed, stays[i].row.checkIn, stays[i].row.points)
            case None => Plan(p, legacyUsed, stays[i..]) == None
            case Some(ds) =>
              Prepend(done, Plan(p, legacyUsed, stays[i..])) ==
              Prepend(done + [Funded(stays[i], ds)], Plan(p.Spend(ds), legacyUsed, stays[i + 1..]))
  {
    assert stays[i..][1..] == stays[i + 1..];
    match FundStay(p, legacyUsed, stays[i].row.checkIn, stays[i].row.points)
    case None =>
    case Some(ds) =>
      match Plan(p.Spend(ds), legacyUsed, stays[i + 1..])
      case None =>
      case Some(rest) => assert done + ([Funded(stays[i], ds)] + rest) == (done + [Funded(stays[i], ds)]) + rest;
  }

  lemma PostNext(db: Db, t: Trip, done: seq<Funded>, f: Funded)
    ensures PostPlan(db, t, done + [f]) == PostDraws(PostPlan(db, t, done), t, f.stay.row, f.draws)
  {
    assert (done + [f])[..|done|] == done;
  }

  function Following(done: seq<StayFunding>, rest: Preview): Preview {
    Preview(done + rest.stays, rest.fundable)
  }

  lemma PreviewSkips(p: Pool, legacyUsed: int, stays: seq<TripStay>, i: nat)
    requires i < |stays| && stays[i].Booked()
    ensures PreviewFrom(p, legacyUsed, stays[i..]) == PreviewFrom(p, legacyUsed, stays[i + 1..])
  {
    assert stays[i..][1..] == stays[i + 1..];
  }

  lemma PreviewFunds(p: Pool, legacyUsed: int, stays: seq<TripStay>, i: nat, done: seq<StayFunding>)
    requires i < |stays| && !stays[i].Booked()
    ensures var st := stays[i].row;
            Following(done, PreviewFrom(p, legacyUsed, stays[i..])) ==
            match FundStay(p, legacyUsed, st.checkIn, st.points)
            case None =>
              Preview(done + [StayFunding(st.id, false, [], ShortBy(p, legacyUsed, st.checkIn, st.points))], false)
            case Some(ds) =>
              Following(done + [StayFunding(st.id, true, ds, 0)], PreviewFrom(p.Spend(ds), legacyUsed, stays[i + 1..]))
  {
    var st := stays[i].row;
    assert stays[i..][1..] == stays[i + 1..];
    match FundStay(p, legacyUsed, st.checkIn, st.points)
    case None =>
    case Some(ds) =>
      var rest := PreviewFrom(p.Spend(ds), legacyUsed, stays[i + 1..]).stays;
      assert done + ([StayFunding(st.id, true, ds, 0)] + rest) == (done + [StayFunding(st.id, true, ds, 0)]) + rest;
  }

  // ----- Proof steps of ListStays

  function LinkOrder(l: Link): (int, int) {
    (l.stay, l.entry)
  }

  /** The entry ids that grouping link rows by stay collects for one stay. */
  function GroupOf(rows: seq<Link>, stay: int): seq<int> {
    if rows == [] then []
    else
      var front, last := GroupOf(rows[..|rows| - 1], stay), rows[|rows| - 1];
      if last.stay == stay then front + [last.entry] else front
  }

  lemma {:induction false} GroupExact(rows: seq<Link>, stay: int)
    requires Sorting.StrictlySorted(LinkOrder, rows)
    ensures var g := GroupOf(rows, stay);
            && (forall e :: e in g <==> Link(stay, e) in rows)
            && (forall i, j :: 0 <= i < j < |g| ==> g[i] < g[j])
  {
    if rows != [] {
      var front, last := rows[..|rows| - 1], rows[|rows| - 1];
      GroupExact(front, stay);
      assert rows == front + [last];
      var g := GroupOf(front, stay);
      if last.stay == stay {
        forall i | 0 <= i < |g| ensures g[i] < last.entry {
          assert g[i] in g;
          var j :| 0 <= j < |front| && front[j] == Link(stay, g[i]);
          assert rows[j] == front[j];
        }
      }
    }
  }

  lemma {:induction false} AscendingUnique(a: seq<int>, b: seq<int>)
    requires forall i, j :: 0 <= i < j < |a| ==> a[i] < a[j]
    requires forall i, j :: 0 <= i < j < |b| ==> b[i] < b[j]
    requires forall x :: x in a <==> x in b
    ensures a == b
  {
    var key := (x: int) => (x, 0);
    forall x: int | x in a ensures x in b {}
    forall x: int | x in b ensures x in a {}
    Sorting.StrictUnique(key, a, b);
  }

  lemma {:induction false} IDsExact(entries: seq<Entry>)
    requires Rows.Ascending(EntryID, entries)
    ensures var ids := IDsOf(entries);
            && (forall i :: 0 <= i < |ids| ==> ids[i] == entries[i].id)
            && (forall i, j :: 0 <= i < j < |ids| ==> ids[i] < ids[j])
  {
    if entries != [] {
      IDsExact(entries[..|entries| - 1]);
      forall i | 0 <= i < |entries| - 1 ensures entries[i].id < entries[|entries| - 1].id {
        assert EntryID(entries[i]) < EntryID(entries[|entries| - 1]);
      }
    }
  }

  lemma IDMember(entries: seq<Entry>, e: int)
    requires Rows.Ascending(EntryID, entries)
    ensures e in IDsOf(entries) <==> exists i :: 0 <= i < |entries| && entries[i].id == e
  {
    IDsExact(entries);
    if i :| 0 <= i < |entries| && entries[i].id == e {
      assert IDsOf(entries)[i] == e;
    }
    if e in IDsOf(entries) {
      var i :| 0 <= i < |entries| && IDsOf(entries)[i] == e;
      assert entries[i].id == e;
    }
  }

  lemma LinkedMember(db: Db, stay: int, e: int)
    requires KeysFit(db) && LinksFit(db)
    ensures e in IDsOf(LinkedEntries(db.entries, db.links, stay)) <==> Link(stay, e) in db.links
  {
    hide IDsOf, LinkedEntries, HasStay;
    var linked := LinkedEntries(db.entries, db.links, stay);
    LinkedAscending(db.entries, db.links, stay);
    LinkedMembers(db.entries, db.links, stay);
    IDMember(linked, e);
    if Link(stay, e) in db.links {
      assert HasUsage(db.entries, Link(stay, e).entry);
      var i :| 0 <= i < |db.entries| && db.entries[i].id == e;
      assert db.entries[i] in linked;
      var j :| 0 <= j < |linked| && linked[j] == db.entries[i];
    }
    if i :| 0 <= i < |linked| && linked[i].id == e {
      assert linked[i] in linked;
    }
  }

  /** Grouping the trip's link rows gives each stay its linked entries' ids, in id order. */
  lemma GroupIsView(db: Db, rows: seq<Link>, stay: int)
    requires KeysFit(db) && LinksFit(db)
    requires Sorting.StrictlySorted(LinkOrder, rows)
    requires forall e :: Link(stay, e) in rows <==> Link(stay, e) in db.links
    ensures GroupOf(rows, stay) == IDsOf(LinkedEntries(db.entries, db.links, stay))
  {
    var linked := LinkedEntries(db.entries, db.links, stay);
    GroupExact(rows, stay);
    LinkedAscending(db.entries, db.links, stay);
    IDsExact(linked);
    hide GroupOf, IDsOf, LinkedEntries, HasUsage, HasStay;
    forall e ensures e in GroupOf(rows, stay) <==> e in IDsOf(linked) {
      LinkedMember(db, stay, e);
    }
    AscendingUnique(GroupOf(rows, stay), IDsOf(linked));
  }

  /** A row of the query that sums the linked entries' points by stay. */
  datatype StayUsed = StayUsed(stay: int, used: int)

  function UsedOf(entries: seq<Entry>, id: int): int {
    match FindEntry(entries, id) { case Some(e) => e.used case None => 0 }
  }

  /** SELECT trip_stay_id, SUM(used) ... GROUP BY trip_stay_id, over link rows in stay order. */
  function UsedGroups(entries: seq<Entry>, rows: seq<Link>): seq<StayUsed> {
    if rows == [] then []
    else
      var groups, l := UsedGroups(entries, rows[..|rows| - 1]), rows[|rows| - 1];
      var used := UsedOf(entries, l.entry);
      if groups != [] && groups[|groups| - 1].stay == l.stay
      then groups[..|groups| - 1] + [StayUsed(l.stay, groups[|groups| - 1].used + used)]
      else groups + [StayUsed(l.stay, used)]
  }

  /** What a map filled from the groups holds for a stay. */
  function GroupFor(groups: seq<StayUsed>, stay: int): int {
    if groups == [] then 0
    else if groups[|groups| - 1].stay == stay then groups[|groups| - 1].used
    else GroupFor(groups[..|groups| - 1], stay)
  }

  lemma GroupForLast(groups: seq<StayUsed>, g: StayUsed, stay: int)
    ensures GroupFor(groups + [g], stay) == if g.stay == stay then g.used else GroupFor(groups, stay)
  {
    assert (groups + [g])[..|groups|] == groups;
  }

  lemma LastGroup(entries: seq<Entry>, rows: seq<Link>)
    requires rows != []
    ensures var groups := UsedGroups(entries, rows);
            groups != [] && groups[|groups| - 1].stay == rows[|rows| - 1].stay
  {
  }

  lemma {:induction false} NoGroupYet(entries: seq<Entry>, rows: seq<Link>, stay: int)
    requires forall i :: 0 <= i < |rows| ==> rows[i].stay < stay
    ensures GroupFor(UsedGroups(entries, rows), stay) == 0
  {
    hide GroupFor, UsedOf;
    if rows == [] {
      NothingGrouped(stay);
    } else {
      var front, l := rows[..|rows| - 1], rows[|rows| - 1];
      var groups, used := UsedGroups(entries, front), UsedOf(entries, l.entry);
      NoGroupYet(entries, front, stay);
      if groups != [] && groups[|groups| - 1].stay == l.stay {
        var before, g := groups[..|groups| - 1], groups[|groups| - 1];
        assert groups == before + [g];
        GroupForLast(before, g, stay);
        GroupForLast(before, StayUsed(l.stay, g.used + used), stay);
      } else {
        GroupForLast(groups, StayUsed(l.stay, used), stay);
      }
    }
  }

  lemma NothingGrouped(stay: int)
    ensures GroupFor([], stay) == 0
  {
  }

  /** The sums are those of the entries that grouping by stay collects. */
  lemma {:induction false} UsedGroupsExact(db: Db, rows: seq<Link>, stay: int)
    requires Sorting.StrictlySorted(LinkOrder, rows)
    ensures GroupFor(UsedGroups(db.entries, rows), stay) == UsedBy(db, GroupOf(rows, stay))
  {
    if rows != [] {
      var front, l := rows[..|rows| - 1], rows[|rows| - 1];
      UsedGroupsExact(db, front, stay);
      GroupStep(db, front, l, stay);
      assert rows == front + [l];
    }
  }

  lemma GroupOfLast(front: seq<Link>, l: Link, stay: int)
    ensures GroupOf(front + [l], stay) ==
                if l.stay == stay then GroupOf(front, stay) + [l.entry] else GroupOf(front, stay)
  {
    assert (front + [l])[..|front|] == front;
  }

  lemma UsedByLast(db: Db, ids: seq<int>, id: int)
    ensures UsedBy(db, ids + [id]) == UsedBy(db, ids) + UsedOf(db.entries, id)
  {
    assert (ids + [id])[..|ids|] == ids;
  }

  lemma UsedGroupsLast(entries: seq<Entry>, front: seq<Link>, l: Link, stay: int)
    requires forall i :: 0 <= i < |front| ==> front[i].stay <= l.stay
    requires forall i, j :: 0 <= i < j < |front| ==> front[i].stay <= front[j].stay
    ensures GroupFor(UsedGroups(entries, front + [l]), stay) ==
            GroupFor(UsedGroups(entries, front), stay) + if l.stay == stay then UsedOf(entries, l.entry) else 0
  {
    hide GroupFor, UsedOf;
    var groups, used := UsedGroups(entries, front), UsedOf(entries, l.entry);
    assert (front + [l])[..|front|] == front;
    if front != [] && front[|front| - 1].stay == l.stay {
      LastGroup(entries, front);
      var before, g := groups[..|groups| - 1], groups[|groups| - 1];
      assert groups == before + [g];
      GroupForLast(before, g, stay);
      GroupForLast(before, StayUsed(l.stay, g.used + used), stay);
    } else {
      NoGroupYet(entries, front, l.stay);
      GroupForLast(groups, StayUsed(l.stay, used), stay);
    }
  }

  lemma GroupStep(db: Db, front: seq<Link>, l: Link, stay: int)
    requires Sorting.StrictlySorted(LinkOrder, front + [l])
    requires GroupFor(UsedGroups(db.entries, front), stay) == UsedBy(db, GroupOf(front, stay))
    ensures GroupFor(UsedGroups(db.entries, front + [l]), stay) == UsedBy(db, GroupOf(front + [l], stay))
  {
    hide GroupFor, UsedGroups, GroupOf, UsedBy, UsedOf;
    var rows := front + [l];
    forall i, j | 0 <= i < j < |rows| ensures rows[i].stay <= rows[j].stay {
      assert Sorting.Less(LinkOrder(rows[i]), LinkOrder(rows[j]));
    }
    assert forall i :: 0 <= i < |front| ==> rows[i] == front[i];
    assert rows[|front|] == l;
    UsedGroupsLast(db.entries, front, l, stay);
    GroupOfLast(front, l, stay);
    UsedByLast(db, GroupOf(front, stay), l.entry);
  }

  lemma {:induction false} UsedByTotal(db: Db, es: seq<Entry>)
    requires Rows.Ascending(EntryID, db.entries) && forall i :: 0 <= i < |es| ==> es[i] in db.entries
    ensures UsedBy(db, IDsOf(es)) == TotalUsed(es)
  {
    if es != [] {
      var front, e := es[..|es| - 1], es[|es| - 1];
      UsedByTotal(db, front);
      FindEntryExact(db.entries, e.id);
      var i :| 0 <= i < |db.entries| && db.entries[i] == e;
      var found := FindEntry(db.entries, e.id).value;
      var j :| 0 <= j < |db.entries| && db.entries[j] == found;
      Rows.SameRow(EntryID, db.entries, i, j);
      assert IDsOf(es)[..|front|] == IDsOf(front);
    }
  }

  /** The query's sum for a stay is the sum over its linked entries. */
  lemma GroupedUsedIsView(db: Db, rows: seq<Link>, stay: int)
    requires KeysFit(db) && LinksFit(db)
    requires Sorting.StrictlySorted(LinkOrder, rows)
    requires forall e :: Link(stay, e) in rows <==> Link(stay, e) in db.links
    ensures GroupFor(UsedGroups(db.entries, rows), stay) == TotalUsed(LinkedEntries(db.entries, db.links, stay))
  {
    hide HasUsage, HasStay, UsedBy;
    var linked := LinkedEntries(db.entries, db.links, stay);
    UsedGroupsExact(db, rows, stay);
    GroupIsView(db, rows, stay);
    LinkedMembers(db.entries, db.links, stay);
    forall i | 0 <= i < |linked| ensures linked[i] in db.entries {
      assert linked[i] in linked;
    }
    UsedByTotal(db, linked);
  }

  function UsedAt(m: map<int, int>, stay: int): int {
    if stay in m then m[stay] else 0
  }

  method IndexUsed(used: seq<StayUsed>) returns (usedByStay: map<int, int>)
    ensures forall s :: UsedAt(usedByStay, s) == GroupFor(used, s)
  {
    usedByStay := map[];
    for i := 0 to |used|
      invariant forall s :: UsedAt(usedByStay, s) == GroupFor(used[..i], s)
    {
      assert used[..i + 1][..i] == used[..i];
      usedByStay := usedByStay[used[i].stay := used[i].used];
    }
    assert used[..|used|] == used;
  }

  function IDsAt(m: map<int, seq<int>>, stay: int): seq<int> {
    if stay in m then m[stay] else []
  }

  method GroupLinks(linkRows: seq<Link>) returns (entryIDsByStay: map<int, seq<int>>)
    ensures forall s :: IDsAt(entryIDsByStay, s) == GroupOf(linkRows, s)
  {
    entryIDsByStay := map[];
    for i := 0 to |linkRows|
      invariant forall s :: IDsAt(entryIDsByStay, s) == GroupOf(linkRows[..i], s)
    {
      var l := linkRows[i];
      assert linkRows[..i + 1][..i] == linkRows[..i];
      entryIDsByStay := entryIDsByStay[l.stay := IDsAt(entryIDsByStay, l.stay) + [l.entry]];
    }
    assert linkRows[..|linkRows|] == linkRows;
  }

  /** What one attempt answers: a conflict matters only to an attempt that would otherwise commit. */
  function Attempted(db: Db, trip: int, conflict: bool): Result<(), BookError> {
    match BookOnce(db, trip)
    case Err(e) => Err(e)
    case Ok(_) => if conflict then Err(SerializationFailure) else Ok(())
  }

  /** From db to after by lost attempts, each taking identity values and losing to one rival's requests. */
  ghost predicate LostTo(db: Db, rivals: seq<seq<Runs.Request>>, after: Db)
    decreases |rivals|
  {
    if rivals == [] then after == db
    else exists mid, nextEntry ::
        && LostTo(db, rivals[..|rivals| - 1], mid) && nextEntry >= mid.nextEntry
        && after == Runs.Run(mid.(nextEntry := nextEntry), rivals[|rivals| - 1])
  }

  lemma NoneLost(db: Db)
    ensures LostTo(db, [], db)
  {
  }

  lemma LostAgain(db: Db, rivals: seq<seq<Runs.Request>>, mid: Db, after: Db, rival: seq<Runs.Request>)
    requires LostTo(db, rivals, mid)
    requires after == mid.(nextEntry := after.nextEntry) && after.nextEntry >= mid.nextEntry
    ensures LostTo(db, rivals + [rival], Runs.Run(after, rival))
  {
    assert (rivals + [rival])[..|rivals|] == rivals;
    assert Runs.Run(after, rival) == Runs.Run(mid.(nextEntry := after.nextEntry), (rivals + [rival])[|rivals|]);
  }

  /** Some of the stays is linked to the entry. */
  ghost predicate OwnedBy(links: set<Link>, stays: set<int>, entry: int) {
    exists s :: s in stays && Link(s, entry) in links
  }

  class Store {
    var contracts: seq<Contract>
    var trips: seq<Trip>
    var stays: seq<StayRow>
    var entries: seq<Entry>
    var links: set<Link>
    var nextTrip: int
    var nextStay: int
    var nextEntry: int

    /** The tables as one value. */
    function State(): Db
      reads this
    {
      Db(contracts, trips, stays, entries, links, nextTrip, nextStay, nextEntry)
    }

    constructor (contracts: seq<Contract>)
      requires DistinctContracts(contracts)
      ensures State() == Db(contracts, [], [], [], {}, 1, 1, 1) && Consistent(State())
    {
      this.contracts, trips, stays, entries, links := contracts, [], [], [], {};
      nextTrip, nextStay, nextEntry := 1, 1, 1;
    }

    /** Commits a transaction's view of the tables. */
    method Write(tx: Db)
      modifies this
      ensures State() == tx
    {
      contracts, trips, stays, entries, links := tx.contracts, tx.trips, tx.stays, tx.entries, tx.links;
      nextTrip, nextStay, nextEntry := tx.nextTrip, tx.nextStay, tx.nextEntry;
    }

    // ----- Reading

    /** SELECT trip_stay_id, entry_id ... ORDER BY trip_stay_id, entry_id, for the trip's stays. */
    method TripLinks(trip: int) returns (rows: seq<Link>)
      ensures Sorting.StrictlySorted(LinkOrder, rows)
      ensures forall l :: l in rows <==> l in links && l.stay in StayIDsOf(stays, trip)
    {
      var own := StayIDsOf(stays, trip);
      var todo := set l | l in links && l.stay in own;
      var found: seq<Link> := [];
      ghost var all := todo;
      while todo != {}
        invariant todo <= all
        invariant forall l :: l in found <==> l in all - todo
        invariant forall i, j :: 0 <= i < j < |found| ==> found[i] != found[j]
      {
        var l :| l in todo;
        assert l !in found;
        found := found + [l];
        todo := todo - {l};
      }
      rows := Sorting.SortSlice(LinkOrder, found);
      Sorting.PermutationIsStrict(LinkOrder, found, rows);
      forall l ensures l in rows <==> l in found {
        assert l in multiset(rows) <==> l in multiset(found);
      }
    }

    method ListStays(trip: int) returns (out: seq<TripStay>)
      requires KeysFit(State()) && LinksFit(State())
      ensures out == Booking.ListStays(State(), trip)
    {
      hide HasUsage, HasStay, LinkedEntries, TotalUsed, TripRows, UsedGroups, GroupFor, GroupOf;
      ghost var db := State();
      var rows := TripRows(State(), trip);
      var linkRows := TripLinks(trip);
      var entryIDsByStay := GroupLinks(linkRows);
      var usedByStay := IndexUsed(UsedGroups(entries, linkRows));
      TripRowsExact(db, trip);
      out := [];
      for i := 0 to |rows|
        invariant State() == db
        invariant out == Views(db, rows[..i])
      {
        var st := rows[i];
        assert st in rows && st.id in StayIDsOf(stays, trip);
        GroupIsView(db, linkRows, st.id);
        GroupedUsedIsView(db, linkRows, st.id);
        assert rows[..i + 1][..i] == rows[..i];
        out := out + [TripStay(st, IDsAt(entryIDsByStay, st.id), UsedAt(usedByStay, st.id))];
      }
      assert rows[..|rows|] == rows;
    }

    method PreviewStayFunding(checkIn: Date, points: int) returns (r: Option<seq<Draw>>)
      ensures r == FundStay(PoolOf(State()), UnattributedUsage(entries), checkIn, points)
    {
      var lots, consumed := LotsOf(entries), ConsumedOf(entries);
      var available := AvailablePoints(lots, consumed, UnattributedUsage(entries));
      if points > available { return None; }
      r := AllocateStayPoints(contracts, lots, consumed, checkIn, points);
    }

    /** The dry run: threads each stay's draws into the next stay's consumed list, as booking does. */
    method PreviewTripFunding(tripStays: seq<TripStay>) returns (preview: Preview)
      requires Booking.Payable(tripStays)
      ensures preview == PreviewFrom(PoolOf(State()), UnattributedUsage(entries), tripStays)
    {
      hide Allocate, Available, CapacityFor, Min, LotsOf, ConsumedOf, UnattributedUsage;
      var lots, consumed := LotsOf(entries), ConsumedOf(entries);
      var legacyUsed := UnattributedUsage(entries);
      ghost var p0 := PoolOf(State());
      var out: seq<StayFunding> := [];
      assert tripStays[0..] == tripStays;
      assert [] + PreviewFrom(p0, legacyUsed, tripStays).stays == PreviewFrom(p0, legacyUsed, tripStays).stays;
      for i := 0 to |tripStays|
        invariant PreviewFrom(p0, legacyUsed, tripStays)
               == Following(out, PreviewFrom(Pool(contracts, lots, consumed), legacyUsed, tripStays[i..]))
      {
        var st := tripStays[i];
        ghost var p := Pool(contracts, lots, consumed);
        if st.Booked() {
          PreviewSkips(p, legacyUsed, tripStays, i);
          continue;
        }
        PreviewFunds(p, legacyUsed, tripStays, i, out);
        var available := AvailablePoints(lots, consumed, legacyUsed);
        if st.row.points > available {
          return Preview(out + [StayFunding(st.row.id, false, [], st.row.points - available)], false);
        }
        var draws := AllocateStayPoints(contracts, lots, consumed, st.row.checkIn, st.row.points);
        if draws.None? {
          var short := Shortfall(contracts, lots, consumed, st.row.checkIn, st.row.points);
          return Preview(out + [StayFunding(st.row.id, false, [], short)], false);
        }
        out := out + [StayFunding(st.row.id, true, draws.value, 0)];
        consumed := consumed + draws.value;
      }
      assert tripStays[|tripStays|..] == [] && out + [] == out;
      return Preview(out, true);
    }

    // ----- Booking

    /** Posts one stay's draws to a transaction's view of the tables. */
    method PostStay(view: Db, t: Trip, st: StayRow, draws: seq<Draw>) returns (tx: Db)
      ensures tx == PostDraws(view, t, st, draws)
    {
      tx := view;
      for i := 0 to |draws|
        invariant tx == PostDraws(view, t, st, draws[..i])
      {
        assert draws[..i + 1][..i] == draws[..i];
        var newID := tx.nextEntry;
        tx := AddEntry(tx, EntryFor(t, st, draws[i], 0));
        tx := tx.(links := tx.links + {Link(st.id, newID)});
      }
      assert draws[..|draws|] == draws;
    }

    /** The booking loop, on a transaction's view of the tables. When a stay is refused the view is of
        no use but for the identity values it took. */
    method BookStays(t: Trip, tripStays: seq<TripStay>) returns (funded: bool, tx: Db)
      requires Bounded(State())
      ensures match Plan(PoolOf(State()), UnattributedUsage(entries), tripStays)
              case None => !funded && tx.nextEntry >= nextEntry
              case Some(plan) => funded && tx == PostPlan(State(), t, plan)
    {
      var lots, consumed := LotsOf(entries), ConsumedOf(entries);
      var legacyUsed := UnattributedUsage(entries);
      ghost var p0 := PoolOf(State());
      ghost var done: seq<Funded> := [];
      tx := State();
      assert tripStays[0..] == tripStays;
      assert Plan(p0, legacyUsed, tripStays).Some? ==>
          [] + Plan(p0, legacyUsed, tripStays).value == Plan(p0, legacyUsed, tripStays).value;
      for i := 0 to |tripStays|
        invariant tx == PostPlan(State(), t, done)
        invariant Plan(p0, legacyUsed, tripStays)
               == Prepend(done, Plan(Pool(contracts, lots, consumed), legacyUsed, tripStays[i..]))
      {
        var st := tripStays[i];
        ghost var p := Pool(contracts, lots, consumed);
        if st.Booked() {
          PlanSkips(p, legacyUsed, tripStays, i);
          continue;
        }
        PlanFunds(p, legacyUsed, tripStays, i, done);
        PlanShape(State(), t, done);
        var available := AvailablePoints(lots, consumed, legacyUsed);
        if st.row.points > available {
          return false, tx;
        }
        var draws := AllocateStayPoints(contracts, lots, consumed, st.row.checkIn, st.row.points);
        if draws.None? {
          return false, tx;
        }
        tx := PostStay(tx, t, st.row, draws.value);
        PostNext(State(), t, done, Funded(st, draws.value));
        done := done + [Funded(st, draws.value)];
        consumed := consumed + draws.value;
      }
      assert tripStays[|tripStays|..] == [] && done + [] == done;
      return true, tx;
    }

    /** One attempt. Nothing is written unless every unbooked stay is funded and the commit goes
        through; `conflict` says whether the database answers the commit with a serialization
        failure. Identity values an abandoned attempt took are not given back. */
    method BookTripOnce(trip: int, conflict: bool) returns (r: Result<(), BookError>)
      requires Consistent(State())
      modifies this
      ensures Consistent(State())
      ensures r == Attempted(old(State()), trip, conflict)
      ensures r.Ok? ==> BookOnce(old(State()), trip) == Ok(State())
      ensures r.Err? ==> State() == old(State()).(nextEntry := nextEntry)
      ensures nextEntry >= old(nextEntry)
      ensures r == Err(SerializationFailure) ==> conflict
      ensures conflict ==> r.Err?
      ensures r == Err(TripNotFound) <==> forall t :: t in old(trips) ==> t.id != trip
    {
      FindTripExact(trips, trip);
      var found := FindTrip(trips, trip);
      if found.None? { return Err(TripNotFound); }
      ghost var db := State();
      ConsistentIsBounded(db);
      var tripStays := ListStays(trip);
      var funded, tx := BookStays(found.value, tripStays);
      if !funded {
        HigherCounterKeeps(db, db.(nextEntry := tx.nextEntry));
        nextEntry := tx.nextEntry;
        return Err(InsufficientPoints);
      }
      PlanShape(db, found.value, TripPlan(db, trip));
      if conflict {
        HigherCounterKeeps(db, db.(nextEntry := tx.nextEntry));
        nextEntry := tx.nextEntry;
        return Err(SerializationFailure);
      }
      BookOnceKeeps(db, trip);
      Write(tx);
      return Ok(());
    }

    /** Retries an attempt that lost a serialization conflict, and only that, up to three times. Attempt i
        loses to rivals[i] while there is one: other transactions, whose requests the next attempt then
        finds carried out. `before` is what the last attempt started from: its answer is an attempt's answer
        there, and it left the tables as one booking leaves them, or as they were but for the requests of a
        rival that it lost to. */
    method BookTrip(trip: int, rivals: seq<seq<Runs.Request>>)
      returns (r: Result<(), BookError>, ghost attempts: nat, ghost before: Db)
      requires Consistent(State())
      modifies this
      ensures 1 <= attempts <= 3 && attempts - 1 <= |rivals|
      ensures LostTo(old(State()), rivals[..attempts - 1], before)
      ensures Consistent(before) && Consistent(State())
      ensures r == Attempted(before, trip, attempts - 1 < |rivals|)
      ensures r.Ok? ==> BookOnce(before, trip) == Ok(State())
      ensures r.Err? && r.error != SerializationFailure ==> State() == before.(nextEntry := nextEntry)
      ensures r == Err(SerializationFailure) ==>
        attempts == 3 && LostTo(old(State()), rivals[..attempts], State())
    {
      hide BookOnce, Consistent, LostTo, Attempted, Runs.Run;
      var attempt := 0;
      attempts, before, r := 0, State(), Err(SerializationFailure);
      NoneLost(State());
      assert rivals[..0] == [];
      ghost var db := State();
      while attempt < BOOK_TRIP_ATTEMPTS
        invariant 0 <= attempt <= BOOK_TRIP_ATTEMPTS && attempts == attempt <= |rivals|
        invariant Consistent(State()) && Consistent(before)
        invariant LostTo(db, rivals[..attempt], State())
        invariant r == Err(SerializationFailure)
        invariant attempt > 0 ==>
            LostTo(db, rivals[..attempt - 1], before) && r == Attempted(before, trip, attempt - 1 < |rivals|)
      {
        before, attempts := State(), attempts + 1;
        r := BookTripOnce(trip, attempt < |rivals|);
        if r != Err(SerializationFailure) { return; }
        ghost var after := State();
        Runs.RunKeeps(after, rivals[attempt]);
        LostAgain(db, rivals[..attempt], before, after, rivals[attempt]);
        assert rivals[..attempt + 1] == rivals[..attempt] + [rivals[attempt]];
        Write(Runs.Run(State(), rivals[attempt]));
        attempt := attempt + 1;
      }
    }

    /** Removes the links of the trip's stays and exactly the entries they named, and nothing else. */
    method UnbookTrip(trip: int)
      requires Consistent(State())
      modifies this
      ensures Consistent(State())
      ensures State() == old(State()).(entries := entries, links := links)
      ensures forall e :: e in entries <==> e in old(entries) && !OwnedBy(old(links), old(StayIDsOf(stays, trip)), e.id)
      ensures forall l :: l in links <==> l in old(links) && l.stay !in old(StayIDsOf(stays, trip))
      ensures State() == Unbook(old(State()), trip)
    {
      ghost var db := State();
      var tx := State();
      tx := DeleteEntries(tx, EntriesLinkedTo(tx, StayIDsOf(tx.stays, trip)));
      DeleteEntriesKeeps(db, EntriesLinkedTo(db, StayIDsOf(db.stays, trip)));
      DeleteLinkedExact(db, StayIDsOf(db.stays, trip));
      Write(tx);
    }

    /** Removes the trip, its stays, their links and exactly the entries linked to them, and nothing else.
        Entries first: the cascade would take the links to them away. */
    method DeleteTrip(trip: int)
      requires Consistent(State())
      modifies this
      ensures Consistent(State())
      ensures State() == old(State()).(trips := trips, stays := stays, entries := entries, links := links)
      ensures forall t :: t in trips <==> t in old(trips) && t.id != trip
      ensures forall s :: s in stays <==> s in old(stays) && s.trip != trip
      ensures forall e :: e in entries <==> e in old(entries) && !OwnedBy(old(links), old(StayIDsOf(stays, trip)), e.id)
      ensures forall l :: l in links <==> l in old(links) && l.stay !in old(StayIDsOf(stays, trip))
      ensures State() == Booking.DeleteTrip(old(State()), trip)
    {
      ghost var db := State();
      var tx := State();
      tx := DeleteEntries(tx, EntriesLinkedTo(tx, StayIDsOf(tx.stays, trip)));
      tx := DeleteTripRow(tx, trip);
      DeleteEntriesKeeps(db, EntriesLinkedTo(db, StayIDsOf(db.stays, trip)));
      DeleteTripRowKeeps(Unbook(db, trip), trip);
      DeleteTripExact(db, trip);
      Write(tx);
    }

    /** Removes the stay, its links and exactly the entries linked to it, and nothing else. */
    method DeleteStay(stay: int)
      requires Consistent(State())
      modifies this
      ensures Consistent(State())
      ensures State() == old(State()).(stays := stays, entries := entries, links := links)
      ensures forall s :: s in stays <==> s in old(stays) && s.id != stay
      ensures forall e :: e in entries <==> e in old(entries) && Link(stay, e.id) !in old(links)
      ensures forall l :: l in links <==> l in old(links) && l.stay != stay
      ensures State() == Booking.DeleteStay(old(State()), stay)
    {
      ghost var db := State();
      var tx := State();
      tx := DeleteEntries(tx, EntriesLinkedTo(tx, {stay}));
      tx := DeleteStayRows(tx, {stay});
      DeleteEntriesKeeps(db, EntriesLinkedTo(db, {stay}));
      DeleteStayRowsKeeps(DeleteEntries(db, EntriesLinkedTo(db, {stay})), {stay});
      DeleteStayExact(db, stay);
      Write(tx);
    }

    // ----- Distributing

    /** Advances each contract by a use year, but never past maxYear. */
    method DistributeUpTo(maxYear: int, firstDay: (int, int) -> int) returns (created: seq<Entry>)
      modifies this
      ensures State() == Distribute.Distributed(old(State()), maxYear, firstDay)
      ensures entries == old(entries) + created
      ensures DistinctContracts(contracts) ==>
          forall i :: 0 <= i < |created| ==>
            Distribute.GrantsSome(old(entries), contracts, maxYear, firstDay, created[i])
    {
      hide Distribute.LatestYear, Distribute.CountFor, Distribute.AllocationFor, Distribute.GrantsSome;
      created := [];
      ghost var db := State();
      var all := contracts;
      assert entries == entries + [];
      for i := 0 to |all|
        invariant State() == Distribute.AdvanceAll(db, all[..i], maxYear, firstDay)
        invariant entries == db.entries + created && contracts == db.contracts
      {
        var c := all[i];
        assert all[..i + 1][..i] == all[..i];
        var latest := Distribute.LatestYear(entries, c.id);
        if latest.None? { continue; }
        var target := latest.value + 1;
        if target > maxYear { continue; }
        if Distribute.CountFor(entries, c.id, target) > 0 { continue; }
        var e := Distribute.AllocationFor(c, target, firstDay);
        var newID := nextEntry;
        assert entries + [e.(id := newID)] == db.entries + (created + [e.(id := newID)]);
        Write(AddEntry(State(), e));
        created := created + [e.(id := newID)];
      }
      assert all[..|all|] == all;
      if DistinctContracts(contracts) {
        forall i | 0 <= i < |created|
          ensures Distribute.GrantsSome(db.entries, contracts, maxYear, firstDay, created[i])
        {
          Distribute.DistributedRows(db, maxYear, firstDay, |db.entries| + i);
          assert entries[|db.entries| + i] == created[i];
        }
      }
    }

    // ----- Importing

    /** The validation of one stay's entries, in order. */
    method ScanEntries(imp: ImportedStay, seenBefore: set<int>) returns (scan: Scan)
      ensures scan == ScanStay(State(), seenBefore, imp)
    {
      if |imp.entryIDs| == 0 { return Fault(NoEntries); }
      var seen, sum := seenBefore, 0;
      for i := 0 to |imp.entryIDs|
        invariant ScanIDs(State(), seenBefore, imp.entryIDs[..i]) == Clean(seen, sum)
      {
        var eid := imp.entryIDs[i];
        assert imp.entryIDs[..i + 1][..i] == imp.entryIDs[..i];
        if eid in seen {
          FaultPersists(State(), seenBefore, imp.entryIDs, i + 1);
          return Fault(DuplicateEntry);
        }
        seen := seen + {eid};
        var found := FindEntry(entries, eid);
        if found.None? {
          FaultPersists(State(), seenBefore, imp.entryIDs, i + 1);
          return Fault(EntryNotFound);
        }
        if found.value.kind != Usage || found.value.used <= 0 {
          FaultPersists(State(), seenBefore, imp.entryIDs, i + 1);
          return Fault(EntryNotUsage);
        }
        if IsLinked(links, eid) {
          FaultPersists(State(), seenBefore, imp.entryIDs, i + 1);
          return Fault(EntryLinked);
        }
        sum := sum + found.value.used;
      }
      assert imp.entryIDs[..|imp.entryIDs|] == imp.entryIDs;
      if sum != imp.stay.points { return Fault(PointsMismatch); }
      return Clean(seen, sum);
    }

    method ScanImport(imported: seq<ImportedStay>) returns (scan: Scan)
      ensures match ScanStays(State(), imported)
              case Fault(e) => scan == Fault(e)
              case Clean(_, _) => scan.Clean?
    {
      hide ScanStay;
      ghost var db := State();
      var seen: set<int> := {};
      for i := 0 to |imported|
        invariant State() == db
        invariant ScanStays(db, imported[..i]).Clean? && ScanStays(db, imported[..i]).seen == seen
      {
        assert imported[..i + 1][..i] == imported[..i];
        scan := ScanEntries(imported[i], seen);
        if scan.Fault? {
          StaysFaultPersists(db, imported, i + 1);
          return scan;
        }
        seen := scan.seen;
      }
      assert imported[..|imported|] == imported;
      return Clean(seen, 0);
    }

    /** Inserts the imported stays and their links into a transaction's view of the tables. */
    method WriteImport(view: Db, tripID: int, imported: seq<ImportedStay>) returns (r: Option<Db>)
      ensures r == WriteStays(view, tripID, imported)
    {
      hide AddStay;
      var tx := view;
      for i := 0 to |imported|
        invariant WriteStays(view, tripID, imported[..i]) == Some(tx)
      {
        assert imported[..i + 1][..i] == imported[..i];
        var stayID := tx.nextStay;
        var withStay := AddStay(tx, imported[i].stay.(trip := tripID));
        if withStay.None? {
          WriteFaultPersists(view, tripID, imported, i + 1);
          return None;
        }
        tx := withStay.value;
        var ids := imported[i].entryIDs;
        ghost var before := tx.links;
        for j := 0 to |ids|
          invariant tx == withStay.value.(links := before + LinksFor(stayID, ids[..j]))
        {
          tx := tx.(links := tx.links + {Link(stayID, ids[j])});
          assert ids[..j + 1] == ids[..j] + [ids[j]];
        }
        assert ids[..|ids|] == ids;
      }
      assert imported[..|imported|] == imported;
      return Some(tx);
    }

    /** Validates everything before writing anything, then writes in one transaction. */
    method ImportBookedTrip(t0: Trip, imported: seq<ImportedStay>) returns (r: Result<int, ImportError>)
      modifies this
      ensures match ImportTrip(old(State()), t0, imported)
              case Err(e) => r == Err(e) && State() == old(State()).(nextTrip := nextTrip, nextStay := nextStay)
              case Ok((after, id)) => r == Ok(id) && State() == after
    {
      hide ScanStays, WriteStays;
      if |imported| == 0 { return Err(ImportInvalid); }
      var t := AtLeastOneNight(t0);
      if t.endDate.day < t.startDate.day { return Err(ImportInvalid); }
      for i := 0 to |imported|
        invariant forall j :: 0 <= j < i ==> FieldsFit(imported[j].stay)
      {
        var st := imported[i].stay;
        var want := st.checkOut.day - st.checkIn.day;
        if want < 1 || st.nights != want { return Err(ImportInvalid); }
        if st.points < 0 { return Err(ImportInvalid); }
      }
      var scan := ScanImport(imported);
      if scan.Fault? { return Err(scan.error); }
      var tx := State();
      var added := AddTrip(tx, t);
      if added.None? { return Err(ConstraintViolation); }
      var written := WriteImport(added.value, tx.nextTrip, imported);
      if written.None? { return Err(ConstraintViolation); }
      Write(written.value);
      return Ok(tx.nextTrip);
    }
  }

  lemma {:induction false} SameViews(a: Db, b: Db, rows: seq<StayRow>)
    requires a.entries == b.entries && a.links == b.links
    ensures Views(a, rows) == Views(b, rows)
  {
    if rows != [] {
      SameViews(a, b, rows[..|rows| - 1]);
    }
  }

  /** The identity counter plays no part in whether a booking succeeds. */
  lemma CounterDoesNotDecide(a: Db, b: Db, trip: int)
    requires b == a.(nextEntry := b.nextEntry)
    ensures BookOnce(a, trip).Ok? == BookOnce(b, trip).Ok?
    ensures BookOnce(a, trip).Err? ==> BookOnce(a, trip) == BookOnce(b, trip)
  {
    SameViews(a, b, TripRows(a, trip));
  }

  lemma HigherCounterKeeps(db: Db, after: Db)
    requires Consistent(db) && after == db.(nextEntry := after.nextEntry) && after.nextEntry >= db.nextEntry
    ensures Consistent(after)
  {
    forall l | l in after.links ensures HasStay(after, l.stay) && HasUsage(after.entries, l.entry) {
      assert HasStay(db, l.stay);
    }
    forall i | 0 <= i < |after.stays|
      ensures after.stays[i].points > 0 && HasTrip(after, after.stays[i].trip)
              && View(after, after.stays[i]).entryPoints <= after.stays[i].points
    {
      assert HasTrip(db, db.stays[i].trip);
      assert View(db, db.stays[i]).entryPoints <= db.stays[i].points;
    }
  }

  lemma {:induction false} FaultPersists(db: Db, seen: set<int>, ids: seq<int>, n: nat)
    requires n <= |ids| && ScanIDs(db, seen, ids[..n]).Fault?
    ensures ScanIDs(db, seen, ids) == ScanIDs(db, seen, ids[..n])
  {
    if n == |ids| {
      assert ids[..n] == ids;
    } else {
      assert ids[..|ids| - 1][..n] == ids[..n];
      FaultPersists(db, seen, ids[..|ids| - 1], n);
    }
  }

  lemma {:induction false} StaysFaultPersists(db: Db, stays: seq<ImportedStay>, n: nat)
    requires n <= |stays| && ScanStays(db, stays[..n]).Fault?
    ensures ScanStays(db, stays) == ScanStays(db, stays[..n])
  {
    if n == |stays| {
      assert stays[..n] == stays;
    } else {
      assert stays[..|stays| - 1][..n] == stays[..n];
      StaysFaultPersists(db, stays[..|stays| - 1], n);
    }
  }

  lemma {:induction false} WriteFaultPersists(db: Db, trip: int, stays: seq<ImportedStay>, n: nat)
    requires n <= |stays| && WriteStays(db, trip, stays[..n]).None?
    ensures WriteStays(db, trip, stays).None?
  {
    if n == |stays| {
      assert stays[..n] == stays;
    } else {
      assert stays[..|stays| - 1][..n] == stays[..n];
      WriteFaultPersists(db, trip, stays[..|stays| - 1], n);
    }
  }
}
