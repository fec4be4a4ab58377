/** Posting next year's annual allocations: distributeUpTo, and what repeating it comes to. */
module Distribute {
  import opened Types
  import opened Accounting
  import opened Allocation
  import opened Lifecycle

  // ----- What the ledger says of a contract's allocations

  predicate IsAllocation(e: Entry, contract: int) {
    e.contract == Some(contract) && e.kind == Allocation
  }

  function Later(a: Option<int>, year: int): int {
    if a.Some? && a.value > year then a.value else year
  }

  /** SELECT use_year ... WHERE contract_id AND kind ORDER BY use_year DESC LIMIT 1. */
  function LatestYear(entries: seq<Entry>, contract: int): Option<int> {
    if entries == [] then None
    else
      var front, e := LatestYear(entries[..|entries| - 1], contract), entries[|entries| - 1];
      if IsAllocation(e, contract) then Some(Later(front, e.useYear)) else front
  }

  function CountFor(entries: seq<Entry>, contract: int, year: int): nat {
    if entries == [] then 0
    else
      var e := entries[|entries| - 1];
      CountFor(entries[..|entries| - 1], contract, year)
      + if IsAllocation(e, contract) && e.useYear == year then 1 else 0
  }

  /** The latest year is the greatest use year of the contract's allocation rows, and there is one exactly
      when there is such a row; the rows of a year are counted the same way. */
  lemma {:induction false} LatestYearExact(entries: seq<Entry>, contract: int, year: int)
    ensures forall e :: e in entries && e.contract == Some(contract) && e.kind == Allocation ==>
              LatestYear(entries, contract).Some? && e.useYear <= LatestYear(entries, contract).value
    ensures LatestYear(entries, contract).Some? ==>
              exists e :: e in entries && e.contract == Some(contract) && e.kind == Allocation
                          && e.useYear == LatestYear(entries, contract).value
    ensures CountFor(entries, contract, year) > 0 <==>
            exists e :: e in entries && e.contract == Some(contract) && e.kind == Allocation && e.useYear == year
  {
    if entries != [] {
      var front, e := entries[..|entries| - 1], entries[|entries| - 1];
      LatestYearExact(front, contract, year);
      assert entries == front + [e];
      assert e in entries && forall x :: x in front ==> x in entries;
    }
  }

  // ----- One run

  /** The year a contract is to be advanced to: one past its latest, unless that is past the cap. */
  function NewYear(entries: seq<Entry>, contract: int, maxYear: int): Option<int> {
    match LatestYear(entries, contract)
    case None => None
    case Some(latest) => if latest + 1 > maxYear then None else Some(latest + 1)
  }

  /** The allocation row of a use year; firstDay numbers the first day of a month. */
  function AllocationFor(c: Contract, year: int, firstDay: (int, int) -> int): Entry {
    Entry(0, year, Date(firstDay(year, c.useYearMonth), year, c.useYearMonth), c.name, Allocation,
          c.annualPoints, 0, "", Some(c.id))
  }

  function Advance(db: Db, c: Contract, maxYear: int, firstDay: (int, int) -> int): Db {
    match NewYear(db.entries, c.id, maxYear)
    case None => db
    case Some(target) =>
      if CountFor(db.entries, c.id, target) > 0 then db else AddEntry(db, AllocationFor(c, target, firstDay))
  }

  function AdvanceAll(db: Db, contracts: seq<Contract>, maxYear: int, firstDay: (int, int) -> int): Db {
    if contracts == [] then db
    else
      Advance(AdvanceAll(db, contracts[..|contracts| - 1], maxYear, firstDay),
              contracts[|contracts| - 1], maxYear, firstDay)
  }

  /** What one run leaves. */
  function Distributed(db: Db, maxYear: int, firstDay: (int, int) -> int): Db {
    AdvanceAll(db, db.contracts, maxYear, firstDay)
  }

  // ----- A run posts one row for each contract that is behind, as the ledger stood before it

  /** The rows that the ledger calls for as it stands. */
  function Due(entries: seq<Entry>, contracts: seq<Contract>, maxYear: int, firstDay: (int, int) -> int): seq<Entry> {
    if contracts == [] then []
    else
      var front, c := Due(entries, contracts[..|contracts| - 1], maxYear, firstDay), contracts[|contracts| - 1];
      var target := NewYear(entries, c.id, maxYear);
      if target.Some? then front + [AllocationFor(c, target.value, firstDay)] else front
  }

  function PostAll(db: Db, rows: seq<Entry>): Db {
    if rows == [] then db else AddEntry(PostAll(db, rows[..|rows| - 1]), rows[|rows| - 1])
  }

  lemma AddedRow(db: Db, row: Entry, contract: int, year: int)
    ensures var after := AddEntry(db, row).entries;
            && LatestYear(after, contract)
               == (if IsAllocation(row, contract) then Some(Later(LatestYear(db.entries, contract), row.useYear))
                   else LatestYear(db.entries, contract))
            && CountFor(after, contract, year)
               == CountFor(db.entries, contract, year)
                  + if IsAllocation(row, contract) && row.useYear == year then 1 else 0
  {
    var after := AddEntry(db, row).entries;
    assert after[..|after| - 1] == db.entries;
  }

  lemma {:induction false} PostAllElsewhere(db: Db, rows: seq<Entry>, contract: int)
    requires NoneOf(rows, contract)
    ensures var after := PostAll(db, rows).entries;
            && LatestYear(after, contract) == LatestYear(db.entries, contract)
            && forall y :: CountFor(after, contract, y) == CountFor(db.entries, contract, y)
  {
    if rows != [] {
      hide LatestYear, CountFor, AddEntry;
      var mid := PostAll(db, rows[..|rows| - 1]);
      PostAllElsewhere(db, rows[..|rows| - 1], contract);
      forall y {
        AddedRow(mid, rows[|rows| - 1], contract, y);
      }
    }
  }

  ghost predicate NoneOf(rows: seq<Entry>, contract: int) {
    forall i :: 0 <= i < |rows| ==> rows[i].contract != Some(contract)
  }

  lemma {:induction false} DueOwners(entries: seq<Entry>, contracts: seq<Contract>, maxYear: int,
                                       firstDay: (int, int) -> int,
                                     id: int)
    requires forall i :: 0 <= i < |contracts| ==> contracts[i].id != id
    ensures NoneOf(Due(entries, contracts, maxYear, firstDay), id)
  {
    if contracts != [] {
      var before, c := contracts[..|contracts| - 1], contracts[|contracts| - 1];
      DueOwners(entries, before, maxYear, firstDay, id);
      var target := NewYear(entries, c.id, maxYear);
      if target.Some? {
        NoneAfter(Due(entries, before, maxYear, firstDay), AllocationFor(c, target.value, firstDay), id);
      }
    }
  }

  lemma NoneAfter(rows: seq<Entry>, row: Entry, contract: int)
    requires NoneOf(rows, contract) && row.contract.Some? && row.contract.value != contract
    ensures NoneOf(rows + [row], contract)
  {
  }

  /** Advancing the contracts one after another posts just the rows that were due before the first of them,
      one for each contract below the cap, in contract order; and the check for an existing row never
      finds one. */
  lemma {:induction false} RunPostsDue(db: Db, contracts: seq<Contract>, maxYear: int, firstDay: (int, int) -> int)
    requires DistinctContracts(contracts)
    ensures AdvanceAll(db, contracts, maxYear, firstDay) == PostAll(db, Due(db.entries, contracts, maxYear, firstDay))
  {
    if contracts != [] {
      var front, c := contracts[..|contracts| - 1], contracts[|contracts| - 1];
      RunPostsDue(db, front, maxYear, firstDay);
      var rows := Due(db.entries, front, maxYear, firstDay);
      DueOwners(db.entries, front, maxYear, firstDay, c.id);
      PostAllElsewhere(db, rows, c.id);
      var target := NewYear(db.entries, c.id, maxYear);
      if target.Some? {
        LatestYearExact(db.entries, c.id, target.value);
        var row := AllocationFor(c, target.value, firstDay);
        assert (rows + [row])[..|rows|] == rows;
      }
    }
  }

  // ----- What a run does to each contract

  /** The contract gained a row for the target year, if there is one, and no other row. */
  ghost predicate Gained(entries: seq<Entry>, after: seq<Entry>, contract: int, target: Option<int>, year: int) {
    && LatestYear(after, contract) == (if target.Some? then target else LatestYear(entries, contract))
    && CountFor(after, contract, year) == CountFor(entries, contract, year) + (if target == Some(year) then 1 else 0)
  }

  lemma OthersRow(entries: seq<Entry>, db: Db, c: Contract, row: Entry, contract: int, target: Option<int>, year: int)
    requires Gained(entries, db.entries, contract, target, year)
    requires row.contract == Some(c.id) && c.id != contract
    ensures Gained(entries, AddEntry(db, row).entries, contract, target, year)
  {
    hide AddEntry, LatestYear, CountFor;
    AddedRow(db, row, contract, year);
  }

  lemma OwnRow(db: Db, rows: seq<Entry>, c: Contract, target: int, firstDay: (int, int) -> int, year: int)
    requires NoneOf(rows, c.id)
    requires LatestYear(db.entries, c.id).Some? && target == LatestYear(db.entries, c.id).value + 1
    ensures Gained(db.entries, AddEntry(PostAll(db, rows), AllocationFor(c, target, firstDay)).entries,
                   c.id, Some(target), year)
  {
    hide AddEntry, LatestYear, CountFor, PostAll;
    PostAllElsewhere(db, rows, c.id);
    AddedRow(PostAll(db, rows), AllocationFor(c, target, firstDay), c.id, year);
  }

  lemma NoRow(db: Db, rows: seq<Entry>, contract: int, year: int)
    requires NoneOf(rows, contract)
    ensures Gained(db.entries, PostAll(db, rows).entries, contract, None, year)
  {
    hide LatestYear, CountFor, PostAll;
    PostAllElsewhere(db, rows, contract);
  }

  lemma PostOneMore(db: Db, rows: seq<Entry>, row: Entry)
    ensures PostAll(db, rows + [row]) == AddEntry(PostAll(db, rows), row)
  {
    assert (rows + [row])[..|rows|] == rows;
  }

  lemma {:induction false} DueGained(db: Db, contracts: seq<Contract>, maxYear: int, firstDay: (int, int) -> int,
                                     k: nat, year: int)
    requires DistinctContracts(contracts) && k < |contracts|
    ensures Gained(db.entries, PostAll(db, Due(db.entries, contracts, maxYear, firstDay)).entries, contracts[k].id,
                   NewYear(db.entries, contracts[k].id, maxYear), year)
  {
    hide Gained, AddEntry, PostAll, LatestYear;
    var front, c := contracts[..|contracts| - 1], contracts[|contracts| - 1];
    var rows, target := Due(db.entries, front, maxYear, firstDay), NewYear(db.entries, c.id, maxYear);
    if target.Some? {
      PostOneMore(db, rows, AllocationFor(c, target.value, firstDay));
    }
    if k < |front| {
      DueGained(db, front, maxYear, firstDay, k, year);
      assert contracts[k].id != c.id;
      if target.Some? {
        OthersRow(db.entries, PostAll(db, rows), c, AllocationFor(c, target.value, firstDay), contracts[k].id,
                  NewYear(db.entries, contracts[k].id, maxYear), year);
      }
    } else {
      DueOwners(db.entries, front, maxYear, firstDay, c.id);
      if target.Some? {
        OwnRow(db, rows, c, target.value, firstDay, year);
      } else {
        NoRow(db, rows, c.id, year);
      }
    }
  }

  /** For a contract of the list, a run adds its one due row and nothing else; there was no row for that
      year before. */
  lemma PostedDue(db: Db, contracts: seq<Contract>, maxYear: int, firstDay: (int, int) -> int, k: nat, year: int)
    requires DistinctContracts(contracts) && k < |contracts|
    ensures var id, after := contracts[k].id, PostAll(db, Due(db.entries, contracts, maxYear, firstDay)).entries;
            var target := NewYear(db.entries, id, maxYear);
            && LatestYear(after, id) == (if target.Some? then target else LatestYear(db.entries, id))
            && CountFor(after, id, year) == CountFor(db.entries, id, year) + (if target == Some(year) then 1 else 0)
            && (target == Some(year) ==> CountFor(db.entries, id, year) == 0)
  {
    hide CountFor, LatestYear, PostAll, Due;
    LatestYearExact(db.entries, contracts[k].id, year);
    DueGained(db, contracts, maxYear, firstDay, k, year);
  }

  lemma {:induction false} PostAllTables(db: Db, rows: seq<Entry>)
    ensures var after := PostAll(db, rows);
            && after == db.(entries := after.entries, nextEntry := db.nextEntry + |rows|)
            && |after.entries| == |db.entries| + |rows| && after.entries[..|db.entries|] == db.entries
            && forall i :: 0 <= i < |rows| ==> after.entries[|db.entries| + i] == rows[i].(id := db.nextEntry + i)
  {
    if rows != [] {
      PostAllTables(db, rows[..|rows| - 1]);
    }
  }

  // ----- What a run grants

  /** The contract has allocations, and none yet for the cap's year. */
  ghost predicate Behind(entries: seq<Entry>, c: Contract, maxYear: int) {
    LatestYear(entries, c.id).Some? && LatestYear(entries, c.id).value < maxYear
  }

  /** k is the lot of a contract that is behind, for the year after its latest. */
  ghost predicate NextLot(entries: seq<Entry>, c: Contract, maxYear: int, k: LotKey) {
    Behind(entries, c, maxYear) && k == LotKey(c.id, LatestYear(entries, c.id).value + 1)
  }

  /** The annual points of the contracts that are behind. */
  ghost function AnnualDue(entries: seq<Entry>, contracts: seq<Contract>, maxYear: int): int {
    if contracts == [] then 0
    else
      var c := contracts[|contracts| - 1];
      AnnualDue(entries, contracts[..|contracts| - 1], maxYear)
      + if Behind(entries, c, maxYear) then Max(0, c.annualPoints) else 0
  }

  ghost function DueTo(entries: seq<Entry>, contracts: seq<Contract>, maxYear: int, k: LotKey): int {
    if contracts == [] then 0
    else
      var c := contracts[|contracts| - 1];
      DueTo(entries, contracts[..|contracts| - 1], maxYear, k)
      + if NextLot(entries, c, maxYear, k) then Max(0, c.annualPoints) else 0
  }

  lemma {:induction false} DueToExact(entries: seq<Entry>, contracts: seq<Contract>, maxYear: int, k: LotKey)
    requires DistinctContracts(contracts)
    ensures forall i :: 0 <= i < |contracts| && NextLot(entries, contracts[i], maxYear, k) ==>
              DueTo(entries, contracts, maxYear, k) == Max(0, contracts[i].annualPoints)
    ensures (forall i :: 0 <= i < |contracts| ==> !NextLot(entries, contracts[i], maxYear, k)) ==>
              DueTo(entries, contracts, maxYear, k) == 0
  {
    if contracts != [] {
      DueToExact(entries, contracts[..|contracts| - 1], maxYear, k);
    }
  }

  lemma AllocationGrants(db: Db, c: Contract, year: int, firstDay: (int, int) -> int, k: LotKey)
    ensures var after := AddEntry(db, AllocationFor(c, year, firstDay));
            && AllottedTo(after.entries, k)
               == AllottedTo(db.entries, k) + (if k == LotKey(c.id, year) then Max(0, c.annualPoints) else 0)
            && UsedFrom(after.entries, k) == UsedFrom(db.entries, k)
            && LedgerAvailable(after.entries) == LedgerAvailable(db.entries) + Max(0, c.annualPoints)
  {
    hide AddEntry, AllottedTo, UsedFrom, LedgerAvailable;
    PostingMoves(db, AllocationFor(c, year, firstDay), k);
  }

  lemma {:induction false} DueGrants(db: Db, contracts: seq<Contract>, maxYear: int, firstDay: (int, int) -> int,
                                     k: LotKey)
    ensures var after := PostAll(db, Due(db.entries, contracts, maxYear, firstDay));
            && AllottedTo(after.entries, k) == AllottedTo(db.entries, k) + DueTo(db.entries, contracts, maxYear, k)
            && UsedFrom(after.entries, k) == UsedFrom(db.entries, k)
            && LedgerAvailable(after.entries) == LedgerAvailable(db.entries) + AnnualDue(db.entries, contracts, maxYear)
  {
    hide AllottedTo, UsedFrom, LedgerAvailable, AddEntry, LatestYear, AllocationFor;
    if contracts != [] {
      var front, c := contracts[..|contracts| - 1], contracts[|contracts| - 1];
      DueGrants(db, front, maxYear, firstDay, k);
      var rows, target := Due(db.entries, front, maxYear, firstDay), NewYear(db.entries, c.id, maxYear);
      if target.Some? {
        PostOneMore(db, rows, AllocationFor(c, target.value, firstDay));
        AllocationGrants(PostAll(db, rows), c, target.value, firstDay, k);
      }
    }
  }

  /** A run grants each contract that is behind its annual points, in the lot of the year after its latest,
      and grants no other lot and takes from none; what is available rises by the sum. */
  lemma DistributedGrants(db: Db, maxYear: int, firstDay: (int, int) -> int, k: LotKey)
    requires DistinctContracts(db.contracts)
    ensures var after := Distributed(db, maxYear, firstDay);
            && (forall i :: 0 <= i < |db.contracts| && NextLot(db.entries, db.contracts[i], maxYear, k) ==>
              AllottedTo(after.entries, k) == AllottedTo(db.entries, k) + Max(0, db.contracts[i].annualPoints))
            && ((forall i :: 0 <= i < |db.contracts| ==> !NextLot(db.entries, db.contracts[i], maxYear, k)) ==>
              AllottedTo(after.entries, k) == AllottedTo(db.entries, k))
            && UsedFrom(after.entries, k) == UsedFrom(db.entries, k)
            && LedgerAvailable(after.entries)
               == LedgerAvailable(db.entries) + AnnualDue(db.entries, db.contracts, maxYear)
  {
    hide AllottedTo, UsedFrom, LedgerAvailable, AdvanceAll, PostAll, Due, NextLot;
    RunPostsDue(db, db.contracts, maxYear, firstDay);
    DueGrants(db, db.contracts, maxYear, firstDay, k);
    DueToExact(db.entries, db.contracts, maxYear, k);
  }

  /** The row is an allocation of the contract's annual points for the year after its latest, dated the first
      day of that use year. */
  ghost predicate GrantsNext(entries: seq<Entry>, c: Contract, maxYear: int, firstDay: (int, int) -> int, e: Entry) {
    && Behind(entries, c, maxYear) && e.useYear == LatestYear(entries, c.id).value + 1
    && e.contract == Some(c.id) && e.kind == Allocation && e.allotted == c.annualPoints && e.used == 0
    && e.desc == c.name && e.tag == ""
    && e.date.year == e.useYear && e.date.month == c.useYearMonth && e.date.day == firstDay(e.useYear, c.useYearMonth)
    && UseYearForDate(e.date, c.useYearMonth) == e.useYear
  }

  ghost predicate GrantsSome(entries: seq<Entry>, contracts: seq<Contract>, maxYear: int, firstDay: (int, int) -> int,
                             e: Entry)
  {
    exists i :: 0 <= i < |contracts| && GrantsNext(entries, contracts[i], maxYear, firstDay, e)
  }

  lemma GrantsSomeMore(entries: seq<Entry>, contracts: seq<Contract>, maxYear: int, firstDay: (int, int) -> int,
                       e: Entry)
    requires contracts != []
    requires GrantsSome(entries, contracts[..|contracts| - 1], maxYear, firstDay, e)
             || GrantsNext(entries, contracts[|contracts| - 1], maxYear, firstDay, e)
    ensures GrantsSome(entries, contracts, maxYear, firstDay, e)
  {
    hide GrantsNext;
    var front := contracts[..|contracts| - 1];
    if i :| 0 <= i < |front| && GrantsNext(entries, front[i], maxYear, firstDay, e) {
      assert contracts[i] == front[i];
    }
  }

  ghost predicate AllGrant(entries: seq<Entry>, contracts: seq<Contract>, maxYear: int, firstDay: (int, int) -> int,
                           rows: seq<Entry>)
  {
    forall i :: 0 <= i < |rows| ==> GrantsSome(entries, contracts, maxYear, firstDay, rows[i])
  }

  lemma {:induction false} DueRows(entries: seq<Entry>, contracts: seq<Contract>, maxYear: int,
                                   firstDay: (int, int) -> int)
    ensures AllGrant(entries, contracts, maxYear, firstDay, Due(entries, contracts, maxYear, firstDay))
  {
    if contracts != [] {
      var front, c := contracts[..|contracts| - 1], contracts[|contracts| - 1];
      var before, rows := Due(entries, front, maxYear, firstDay), Due(entries, contracts, maxYear, firstDay);
      DueRows(entries, front, maxYear, firstDay);
      hide GrantsSome;
      forall i | 0 <= i < |rows| ensures GrantsSome(entries, contracts, maxYear, firstDay, rows[i]) {
        if i < |before| {
          assert rows[i] == before[i];
        } else {
          assert GrantsNext(entries, c, maxYear, firstDay, rows[i]);
        }
        GrantsSomeMore(entries, contracts, maxYear, firstDay, rows[i]);
      }
    }
  }

  /** Every row that a run adds is such a row. */
  lemma DistributedRows(db: Db, maxYear: int, firstDay: (int, int) -> int, i: nat)
    requires DistinctContracts(db.contracts)
    requires |db.entries| <= i < |Distributed(db, maxYear, firstDay).entries|
    ensures GrantsSome(db.entries, db.contracts, maxYear, firstDay, Distributed(db, maxYear, firstDay).entries[i])
  {
    hide AdvanceAll, PostAll, Due, LatestYear;
    var rows, n := Due(db.entries, db.contracts, maxYear, firstDay), |db.entries|;
    RunPostsDue(db, db.contracts, maxYear, firstDay);
    PostAllTables(db, rows);
    DueRows(db.entries, db.contracts, maxYear, firstDay);
    var e, row := Distributed(db, maxYear, firstDay).entries[n + (i - n)], rows[i - n];
    assert e == row.(id := db.nextEntry + (i - n));
    assert GrantsSome(db.entries, db.contracts, maxYear, firstDay, row);
    var j :| 0 <= j < |db.contracts| && GrantsNext(db.entries, db.contracts[j], maxYear, firstDay, row);
    assert GrantsNext(db.entries, db.contracts[j], maxYear, firstDay, e);
  }

  // ----- Runs

  function Runs(db: Db, maxYear: int, firstDay: (int, int) -> int, k: nat): Db {
    if k == 0 then db else Distributed(Runs(db, maxYear, firstDay, k - 1), maxYear, firstDay)
  }

  lemma {:induction false} RunsKeepContracts(db: Db, maxYear: int, firstDay: (int, int) -> int, k: nat)
    requires DistinctContracts(db.contracts)
    ensures Runs(db, maxYear, firstDay, k).contracts == db.contracts
  {
    if k > 0 {
      RunsKeepContracts(db, maxYear, firstDay, k - 1);
      var mid := Runs(db, maxYear, firstDay, k - 1);
      RunPostsDue(mid, mid.contracts, maxYear, firstDay);
      PostAllTables(mid, Due(mid.entries, mid.contracts, maxYear, firstDay));
    }
  }

  /** After k runs under one cap M, a contract whose latest allocation year was L stands at
      max(L, min(M, L + k)); a contract that never had an allocation still has none. */
  lemma {:induction false} RunsReach(db: Db, maxYear: int, firstDay: (int, int) -> int, k: nat, i: nat)
    requires DistinctContracts(db.contracts) && i < |db.contracts|
    ensures var before := LatestYear(db.entries, db.contracts[i].id);
            LatestYear(Runs(db, maxYear, firstDay, k).entries, db.contracts[i].id) ==
            if before.None? then None else Some(Max(before.value, Min(maxYear, before.value + k)))
  {
    hide Due, PostAll, AdvanceAll;
    if k > 0 {
      RunsReach(db, maxYear, firstDay, k - 1, i);
      RunsKeepContracts(db, maxYear, firstDay, k - 1);
      var mid := Runs(db, maxYear, firstDay, k - 1);
      RunPostsDue(mid, mid.contracts, maxYear, firstDay);
      PostedDue(mid, mid.contracts, maxYear, firstDay, i, 0);
    }
  }

  /** No run gives a contract a second allocation for a year, and each gives it at most one new row. */
  lemma {:induction false} RunsNeverRepeat(db: Db, maxYear: int, firstDay: (int, int) -> int, k: nat, i: nat, year: int)
    requires DistinctContracts(db.contracts) && i < |db.contracts|
    ensures var id := db.contracts[i].id;
            CountFor(Runs(db, maxYear, firstDay, k).entries, id, year) <= Max(1, CountFor(db.entries, id, year))
  {
    hide Due, PostAll, AdvanceAll, LatestYear;
    if k > 0 {
      RunsNeverRepeat(db, maxYear, firstDay, k - 1, i, year);
      RunsKeepContracts(db, maxYear, firstDay, k - 1);
      var mid := Runs(db, maxYear, firstDay, k - 1);
      RunPostsDue(mid, mid.contracts, maxYear, firstDay);
      PostedDue(mid, mid.contracts, maxYear, firstDay, i, year);
    }
  }

  lemma {:induction false} DueNone(entries: seq<Entry>, contracts: seq<Contract>, maxYear: int,
                                     firstDay: (int, int) -> int)
    ensures Due(entries, contracts, maxYear, firstDay) == [] <==>
            forall i :: 0 <= i < |contracts| ==> NewYear(entries, contracts[i].id, maxYear).None?
  {
    if contracts != [] {
      DueNone(entries, contracts[..|contracts| - 1], maxYear, firstDay);
      assert contracts == contracts[..|contracts| - 1] + [contracts[|contracts| - 1]];
    }
  }

  /** A run changes nothing exactly when no contract with an allocation is below the cap. */
  lemma NoOpExactly(db: Db, maxYear: int, firstDay: (int, int) -> int)
    requires DistinctContracts(db.contracts)
    ensures Distributed(db, maxYear, firstDay) == db <==>
            forall i :: 0 <= i < |db.contracts| ==>
              var latest := LatestYear(db.entries, db.contracts[i].id); latest.None? || latest.value >= maxYear
  {
    var rows := Due(db.entries, db.contracts, maxYear, firstDay);
    RunPostsDue(db, db.contracts, maxYear, firstDay);
    PostAllTables(db, rows);
    DueNone(db.entries, db.contracts, maxYear, firstDay);
    assert forall i :: 0 <= i < |db.contracts| ==>
        (NewYear(db.entries, db.contracts[i].id, maxYear).None? <==>
         var latest := LatestYear(db.entries, db.contracts[i].id); latest.None? || latest.value >= maxYear);
  }

  /** Once k runs have carried every contract to the cap, further runs change nothing: k = max(0, M - L)
      is enough for a contract at L, and one run is enough for all of them when none is more than a year
      behind. */
  lemma RunsSettle(db: Db, maxYear: int, firstDay: (int, int) -> int, k: nat)
    requires DistinctContracts(db.contracts)
    requires forall i :: 0 <= i < |db.contracts| ==>
               var latest := LatestYear(db.entries, db.contracts[i].id); latest.None? || maxYear - latest.value <= k
    ensures Runs(db, maxYear, firstDay, k + 1) == Runs(db, maxYear, firstDay, k)
  {
    var settled := Runs(db, maxYear, firstDay, k);
    RunsKeepContracts(db, maxYear, firstDay, k);
    forall i | 0 <= i < |settled.contracts|
      ensures var latest := LatestYear(settled.entries, settled.contracts[i].id);
              latest.None? || latest.value >= maxYear
    {
      RunsReach(db, maxYear, firstDay, k, i);
    }
    NoOpExactly(settled, maxYear, firstDay);
  }

  // ----- Rows that are not allocations do not matter

  function Allocations(entries: seq<Entry>): seq<Entry> {
    if entries == [] then []
    else
      var front, e := Allocations(entries[..|entries| - 1]), entries[|entries| - 1];
      if e.kind == Allocation then front + [e] else front
  }

  lemma {:induction false} OnlyAllocationsMatter(entries: seq<Entry>, contract: int)
    ensures LatestYear(Allocations(entries), contract) == LatestYear(entries, contract)
  {
    if entries != [] {
      OnlyAllocationsMatter(entries[..|entries| - 1], contract);
    }
  }

  /** Ledgers with the same allocation rows call for the same new ones, whatever else was posted. */
  lemma {:induction false} UsageIsIgnored(a: seq<Entry>, b: seq<Entry>, contracts: seq<Contract>, maxYear: int,
                                          firstDay: (int, int) -> int)
    requires Allocations(a) == Allocations(b)
    ensures Due(a, contracts, maxYear, firstDay) == Due(b, contracts, maxYear, firstDay)
  {
    if contracts != [] {
      UsageIsIgnored(a, b, contracts[..|contracts| - 1], maxYear, firstDay);
      OnlyAllocationsMatter(a, contracts[|contracts| - 1].id);
      OnlyAllocationsMatter(b, contracts[|contracts| - 1].id);
    }
  }
}
