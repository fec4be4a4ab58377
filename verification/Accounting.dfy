/** What the ledger says is available: the SQL aggregates, shortfalls, and the funding preview. */
module Accounting {
  import opened Types
  import opened Allocation
  import Sorting

  // ----- The aggregates, as folds over the entry table

  predicate Grants(e: Entry, k: LotKey) {
    e.allotted > 0 && e.contract == Some(k.contract) && e.useYear == k.year
  }

  predicate Consumes(e: Entry, k: LotKey) {
    e.used > 0 && e.contract == Some(k.contract) && e.useYear == k.year
  }

  function AllottedTo(entries: seq<Entry>, k: LotKey): int {
    if entries == [] then 0
    else
      var e := entries[|entries| - 1];
      AllottedTo(entries[..|entries| - 1], k) + if Grants(e, k) then e.allotted else 0
  }

  function UsedFrom(entries: seq<Entry>, k: LotKey): int {
    if entries == [] then 0
    else
      var e := entries[|entries| - 1];
      UsedFrom(entries[..|entries| - 1], k) + if Consumes(e, k) then e.used else 0
  }

  /** The balance of a (contract, use year) lot as the ledger records it. */
  function LedgerBalance(entries: seq<Entry>, k: LotKey): int {
    AllottedTo(entries, k) - UsedFrom(entries, k)
  }

  /** Points granted to some contract, less points used by anyone, attributed or not. */
  function LedgerAvailable(entries: seq<Entry>): int {
    if entries == [] then 0
    else
      var e := entries[|entries| - 1];
      LedgerAvailable(entries[..|entries| - 1])
      + (if e.allotted > 0 && e.contract.Some? then e.allotted else 0)
      - (if e.used > 0 then e.used else 0)
  }

  // ----- lotSnapshot: GROUP BY contract_id, use_year ORDER BY contract_id, use_year

  function LotOrder(l: Lot): (int, int) {
    (l.key.contract, l.key.year)
  }

  /** Adds n to k's group, opening the group in key order if there is none yet. */
  function AddToGroup(groups: seq<Lot>, k: LotKey, n: int): seq<Lot> {
    if groups == [] then [Lot(k, n)]
    else if groups[0].key == k then [Lot(k, groups[0].points + n)] + groups[1..]
    else if Sorting.Less((k.contract, k.year), LotOrder(groups[0])) then [Lot(k, n)] + groups
    else [groups[0]] + AddToGroup(groups[1..], k, n)
  }

  function LotsOf(entries: seq<Entry>): seq<Lot> {
    if entries == [] then []
    else
      var front, e := LotsOf(entries[..|entries| - 1]), entries[|entries| - 1];
      if e.allotted > 0 && e.contract.Some? then AddToGroup(front, LotKey(e.contract.value, e.useYear), e.allotted)
      else front
  }

  function ConsumedGroups(entries: seq<Entry>): seq<Lot> {
    if entries == [] then []
    else
      var front, e := ConsumedGroups(entries[..|entries| - 1]), entries[|entries| - 1];
      if e.used > 0 && e.contract.Some? then AddToGroup(front, LotKey(e.contract.value, e.useYear), e.used)
      else front
  }

  function AsDraws(groups: seq<Lot>): seq<Draw> {
    if groups == [] then []
    else
      var last := groups[|groups| - 1];
      AsDraws(groups[..|groups| - 1]) + [Draw(last.key, Unset, last.points)]
  }

  function ConsumedOf(entries: seq<Entry>): seq<Draw> {
    AsDraws(ConsumedGroups(entries))
  }

  function PoolOf(db: Db): Pool {
    Pool(db.contracts, LotsOf(db.entries), ConsumedOf(db.entries))
  }

  /** Usage that no contract can be charged for. */
  function UnattributedUsage(entries: seq<Entry>): int {
    if entries == [] then 0
    else
      var e := entries[|entries| - 1];
      UnattributedUsage(entries[..|entries| - 1]) + if e.used > 0 && e.contract.None? then e.used else 0
  }

  function TotalLots(lots: seq<Lot>): int {
    if lots == [] then 0 else TotalLots(lots[..|lots| - 1]) + lots[|lots| - 1].points
  }

  /** Every lot's points, less every consumed draw, less legacy usage. */
  function Available(lots: seq<Lot>, consumed: seq<Draw>, legacyUsed: int): int {
    TotalLots(lots) - TotalDrawn(consumed) - legacyUsed
  }

  method AvailablePoints(lots: seq<Lot>, consumed: seq<Draw>, legacyUsed: int) returns (available: int)
    ensures available == Available(lots, consumed, legacyUsed)
  {
    available := -legacyUsed;
    for i := 0 to |lots|
      invariant available == TotalLots(lots[..i]) - legacyUsed
    {
      assert lots[..i + 1][..i] == lots[..i];
      available := available + lots[i].points;
    }
    assert lots[..|lots|] == lots;
    for i := 0 to |consumed|
      invariant available == TotalLots(lots) - TotalDrawn(consumed[..i]) - legacyUsed
    {
      assert consumed[..i + 1][..i] == consumed[..i];
      available := available - consumed[i].points;
    }
    assert consumed[..|consumed|] == consumed;
  }

  // ----- The snapshot agrees with the ledger

  lemma {:induction false} AddToGroupGrants(groups: seq<Lot>, k: LotKey, n: int, x: LotKey)
    ensures Granted(AddToGroup(groups, k, n), x) == Granted(groups, x) + (if x == k then n else 0)
    ensures HasKey(AddToGroup(groups, k, n), x) <==> HasKey(groups, x) || x == k
    ensures TotalLots(AddToGroup(groups, k, n)) == TotalLots(groups) + n
  {
    if groups != [] {
      var head, rest := [groups[0]], groups[1..];
      assert groups == head + rest;
      GrantedConcat(head, rest, x);
      TotalLotsConcat(head, rest);
      if groups[0].key == k {
        GrantedConcat([Lot(k, groups[0].points + n)], rest, x);
        TotalLotsConcat([Lot(k, groups[0].points + n)], rest);
      } else if Sorting.Less((k.contract, k.year), LotOrder(groups[0])) {
        GrantedConcat([Lot(k, n)], groups, x);
        TotalLotsConcat([Lot(k, n)], groups);
      } else {
        AddToGroupGrants(rest, k, n, x);
        GrantedConcat(head, AddToGroup(rest, k, n), x);
        TotalLotsConcat(head, AddToGroup(rest, k, n));
      }
    }
  }

  lemma {:induction false} TotalLotsConcat(a: seq<Lot>, b: seq<Lot>)
    ensures TotalLots(a + b) == TotalLots(a) + TotalLots(b)
  {
    if b == [] {
      assert a + b == a;
    } else {
      TotalLotsConcat(a, b[..|b| - 1]);
      assert (a + b)[..|a + b| - 1] == a + b[..|b| - 1];
    }
  }

  ghost predicate Granting(entries: seq<Entry>, k: LotKey) {
    exists i :: 0 <= i < |entries| && Grants(entries[i], k)
  }

  lemma {:induction false} LotsExact(entries: seq<Entry>, k: LotKey)
    ensures Granted(LotsOf(entries), k) == AllottedTo(entries, k)
    ensures HasKey(LotsOf(entries), k) <==> Granting(entries, k)
  {
    if entries != [] {
      var front, e := entries[..|entries| - 1], entries[|entries| - 1];
      LotsExact(front, k);
      if e.allotted > 0 && e.contract.Some? {
        AddToGroupGrants(LotsOf(front), LotKey(e.contract.value, e.useYear), e.allotted, k);
      }
      if Granting(front, k) {
        var i :| 0 <= i < |front| && Grants(front[i], k);
        assert Grants(entries[i], k);
      }
      assert Grants(e, k) ==> Grants(entries[|entries| - 1], k);
    }
  }

  lemma {:induction false} ConsumedGroupsExact(entries: seq<Entry>, k: LotKey)
    ensures Granted(ConsumedGroups(entries), k) == UsedFrom(entries, k)
  {
    if entries != [] {
      var front, e := entries[..|entries| - 1], entries[|entries| - 1];
      ConsumedGroupsExact(front, k);
      if e.used > 0 && e.contract.Some? {
        AddToGroupGrants(ConsumedGroups(front), LotKey(e.contract.value, e.useYear), e.used, k);
      }
    }
  }

  lemma {:induction false} AsDrawsExact(groups: seq<Lot>, k: LotKey)
    ensures Drawn(AsDraws(groups), k) == Granted(groups, k)
    ensures TotalDrawn(AsDraws(groups)) == TotalLots(groups)
  {
    if groups != [] {
      AsDrawsExact(groups[..|groups| - 1], k);
    }
  }

  lemma {:induction false} TotalsExact(entries: seq<Entry>)
    ensures TotalLots(LotsOf(entries)) - TotalLots(ConsumedGroups(entries)) - UnattributedUsage(entries)
            == LedgerAvailable(entries)
  {
    if entries != [] {
      var front, e := entries[..|entries| - 1], entries[|entries| - 1];
      TotalsExact(front);
      if e.contract.Some? {
        var k := LotKey(e.contract.value, e.useYear);
        AddToGroupGrants(LotsOf(front), k, e.allotted, k);
        AddToGroupGrants(ConsumedGroups(front), k, e.used, k);
      }
    }
  }

  /** The SQL aggregates agree with the ledger: lot by lot, and in total. */
  lemma SnapshotExact(db: Db)
    ensures forall k :: Balance(PoolOf(db), k) == LedgerBalance(db.entries, k)
    ensures forall k :: HasKey(PoolOf(db).lots, k) <==> Granting(db.entries, k)
    ensures Available(LotsOf(db.entries), ConsumedOf(db.entries), UnattributedUsage(db.entries))
            == LedgerAvailable(db.entries)
  {
    forall k ensures Balance(PoolOf(db), k) == LedgerBalance(db.entries, k)
                     && (HasKey(PoolOf(db).lots, k) <==> Granting(db.entries, k))
    {
      LotsExact(db.entries, k);
      ConsumedGroupsExact(db.entries, k);
      AsDrawsExact(ConsumedGroups(db.entries), k);
    }
    TotalsExact(db.entries);
    AsDrawsExact(ConsumedGroups(db.entries), LotKey(0, 0));
  }

  /** The grouped rows: strictly ordered by (contract, use year), so one row per lot. */
  lemma {:induction false} AddToGroupOrdered(groups: seq<Lot>, k: LotKey, n: int)
    requires Sorting.StrictlySorted(LotOrder, groups)
    ensures Sorting.StrictlySorted(LotOrder, AddToGroup(groups, k, n))
    ensures forall l :: l in AddToGroup(groups, k, n) ==> l.key == k || l in groups
  {
    if groups != [] && groups[0].key != k && !Sorting.Less((k.contract, k.year), LotOrder(groups[0])) {
      AddToGroupOrdered(groups[1..], k, n);
      var rest := AddToGroup(groups[1..], k, n);
      forall i | 0 <= i < |rest| ensures Sorting.Less(LotOrder(groups[0]), LotOrder(rest[i])) {
        assert rest[i] in rest;
        if rest[i].key != k {
          var j :| 0 <= j < |groups[1..]| && groups[1..][j] == rest[i];
          assert groups[j + 1] == rest[i];
        }
      }
    }
  }

  lemma {:induction false} GroupsOrdered(entries: seq<Entry>)
    ensures Sorting.StrictlySorted(LotOrder, LotsOf(entries))
    ensures Sorting.StrictlySorted(LotOrder, ConsumedGroups(entries))
  {
    if entries != [] {
      var front, e := entries[..|entries| - 1], entries[|entries| - 1];
      GroupsOrdered(front);
      if e.contract.Some? {
        AddToGroupOrdered(LotsOf(front), LotKey(e.contract.value, e.useYear), e.allotted);
        AddToGroupOrdered(ConsumedGroups(front), LotKey(e.contract.value, e.useYear), e.used);
      }
    }
  }

  ghost predicate KeysAscend(lots: seq<Lot>) {
    forall i, j :: 0 <= i < j < |lots| ==>
      || lots[i].key.contract < lots[j].key.contract
      || (lots[i].key.contract == lots[j].key.contract && lots[i].key.year < lots[j].key.year)
  }

  /** The groups come once each, by contract and then by use year. */
  lemma LotsOrdered(entries: seq<Entry>)
    ensures KeysAscend(LotsOf(entries)) && KeysAscend(ConsumedGroups(entries))
  {
    GroupsOrdered(entries);
    var lots, groups := LotsOf(entries), ConsumedGroups(entries);
    forall i, j | 0 <= i < j < |lots| ensures Sorting.Less(LotOrder(lots[i]), LotOrder(lots[j])) {}
    forall i, j | 0 <= i < j < |groups| ensures Sorting.Less(LotOrder(groups[i]), LotOrder(groups[j])) {}
  }

  // ----- Funding a stay

  /** Refuses a stay that exceeds the aggregate total, then asks the allocator. */
  function FundStay(p: Pool, legacyUsed: int, checkIn: Date, points: int): Option<seq<Draw>> {
    if points > Available(p.lots, p.consumed, legacyUsed) then None else Allocate(p, checkIn, points)
  }

  function CapacityFor(p: Pool, checkIn: Date): int {
    Capacity(Offers(p, checkIn))
  }

  /** What a refused stay is reported to be short by. */
  function ShortBy(p: Pool, legacyUsed: int, checkIn: Date, points: int): int {
    var available := Available(p.lots, p.consumed, legacyUsed);
    if points > available then points - available else points - Min(points, CapacityFor(p, checkIn))
  }

  lemma CapacityNonNegative(p: Pool, checkIn: Date)
    ensures CapacityFor(p, checkIn) >= 0
  {
    OffersClassified(p, checkIn);
    CapacityAtLeast(Offers(p, checkIn), (0, 0));
  }

  /** Binary search over the allocator itself. */
  method Shortfall(contracts: seq<Contract>, lots: seq<Lot>, consumed: seq<Draw>, checkIn: Date, points: int)
    returns (short: int)
    ensures points <= 0 ==> short == points
    ensures points > 0 ==> short == points - Min(points, CapacityFor(Pool(contracts, lots, consumed), checkIn))
  {
    ghost var p := Pool(contracts, lots, consumed);
    CapacityNonNegative(p, checkIn);
    var lo, hi := 0, points;
    while lo < hi
      invariant points > 0 ==> 0 <= lo <= Min(points, CapacityFor(p, checkIn)) <= hi <= points
      invariant points <= 0 ==> lo == 0 && hi == points
    {
      var mid := (lo + hi + 1) / 2;
      AllocateSucceeds(p, checkIn, mid);
      var r := AllocateStayPoints(contracts, lots, consumed, checkIn, mid);
      if r.Some? {
        lo := mid;
      } else {
        hi := mid - 1;
      }
    }
    return points - lo;
  }

  // ----- What adding points to a lot does

  function OffersWithout(os: seq<Offer>, k: LotKey): seq<Offer> {
    if os == [] then []
    else
      var front := OffersWithout(os[..|os| - 1], k);
      if os[|os| - 1].key == k then front else front + [os[|os| - 1]]
  }

  lemma {:induction false} OffersWithoutOnly(os: seq<Offer>, k: LotKey)
    ensures forall o :: o in OffersWithout(os, k) <==> o in os && o.key != k
  {
    if os != [] {
      OffersWithoutOnly(os[..|os| - 1], k);
      assert os == os[..|os| - 1] + [os[|os| - 1]];
    }
  }

  lemma {:induction false} OffersWithoutMembers(os: seq<Offer>, k: LotKey)
    requires Sorting.StrictlySorted(OfferOrder, os)
    ensures forall o :: o in OffersWithout(os, k) <==> o in os && o.key != k
    ensures Sorting.StrictlySorted(OfferOrder, OffersWithout(os, k))
  {
    hide OfferOrder;
    OffersWithoutOnly(os, k);
    if os != [] {
      var front, last := os[..|os| - 1], os[|os| - 1];
      OffersWithoutMembers(front, k);
      var w := OffersWithout(front, k);
      forall i | 0 <= i < |w| ensures Sorting.Less(OfferOrder(w[i]), OfferOrder(last)) {
        assert w[i] in w;
        var j :| 0 <= j < |front| && front[j] == w[i];
        assert os[j] == w[i];
      }
    }
  }

  lemma {:induction false} CapacityConcat(a: seq<Offer>, b: seq<Offer>)
    ensures Capacity(a + b) == Capacity(a) + Capacity(b)
  {
    if a == [] {
      assert a + b == b;
    } else {
      CapacityConcat(a[1..], b);
      assert (a + b)[1..] == a[1..] + b;
    }
  }

  lemma {:induction false} CapacitySplits(os: seq<Offer>, k: LotKey)
    requires DistinctOffers(os)
    ensures (forall i :: 0 <= i < |os| ==> os[i].key != k) ==> Capacity(os) == Capacity(OffersWithout(os, k))
    ensures forall i :: 0 <= i < |os| && os[i].key == k ==>
                          Capacity(os) == Capacity(OffersWithout(os, k)) + os[i].balance
  {
    if os != [] {
      var front, last := os[..|os| - 1], os[|os| - 1];
      CapacitySplits(front, k);
      assert os == front + [last];
      CapacityConcat(front, [last]);
      CapacityConcat(OffersWithout(front, k), [last]);
      assert Capacity([last]) == last.balance;
      forall i | 0 <= i < |os| && os[i].key == k
        ensures Capacity(os) == Capacity(OffersWithout(os, k)) + os[i].balance
      {
        if i < |front| {
          assert front[i].key == k;
        }
      }
    }
  }

  /** The capacity is what every lot but k offers, plus k's own balance when it is drawable. */
  lemma CapacityOf(p: Pool, checkIn: Date, k: LotKey)
    ensures CapacityFor(p, checkIn) ==
            Capacity(OffersWithout(Offers(p, checkIn), k)) + (if Eligible(p, checkIn, k) then Balance(p, k) else 0)
  {
    var os := Offers(p, checkIn);
    OffersClassified(p, checkIn);
    OffersCover(p, checkIn);
    CapacitySplits(os, k);
    if Eligible(p, checkIn, k) {
      var o := Offer(k, Classify(MonthsOf(p.contracts), checkIn, k).value, Balance(p, k));
      assert OfferAt(p, checkIn, o.key) == Some(o);
      var i :| 0 <= i < |os| && os[i] == o;
    }
  }

  function TopUp(p: Pool, k: LotKey, n: int): Pool {
    p.(lots := p.lots + [Lot(k, n)])
  }

  lemma OtherOffersUnchanged(p: Pool, q: Pool, checkIn: Date, k: LotKey)
    requires MonthsOf(p.contracts) == MonthsOf(q.contracts)
    requires forall x :: x != k ==> Balance(q, x) == Balance(p, x) && HasKey(q.lots, x) == HasKey(p.lots, x)
    ensures OffersWithout(Offers(p, checkIn), k) == OffersWithout(Offers(q, checkIn), k)
  {
    var a, b := OffersWithout(Offers(p, checkIn), k), OffersWithout(Offers(q, checkIn), k);
    OffersClassified(p, checkIn);
    OffersClassified(q, checkIn);
    OffersWithoutMembers(Offers(p, checkIn), k);
    OffersWithoutMembers(Offers(q, checkIn), k);
    forall o: Offer ensures o in a <==> o in b {
      if o.key != k {
        assert OfferAt(p, checkIn, o.key) == OfferAt(q, checkIn, o.key);
      }
    }
    Sorting.StrictUnique(OfferOrder, a, b);
  }

  /** Points added to a drawable lot that is not overdrawn are all available to the stay. */
  lemma TopUpCapacity(p: Pool, checkIn: Date, k: LotKey, n: nat)
    requires Classify(MonthsOf(p.contracts), checkIn, k).Some?
    requires HasKey(p.lots, k) && Balance(p, k) >= 0
    ensures CapacityFor(TopUp(p, k, n), checkIn) == CapacityFor(p, checkIn) + n
    ensures forall legacyUsed ::
              Available(TopUp(p, k, n).lots, p.consumed, legacyUsed) == Available(p.lots, p.consumed, legacyUsed) + n
  {
    var q := TopUp(p, k, n);
    forall x
      ensures Balance(q, x) == Balance(p, x) + (if x == k then n else 0) && HasKey(q.lots, x) == HasKey(p.lots, x) {
      GrantedConcat(p.lots, [Lot(k, n)], x);
      assert HasKey([Lot(k, n)], x) <==> x == k;
    }
    OtherOffersUnchanged(p, q, checkIn, k);
    CapacityOf(p, checkIn, k);
    CapacityOf(q, checkIn, k);
    TotalLotsConcat(p.lots, [Lot(k, n)]);
  }

  function MinimumTopUp(p: Pool, legacyUsed: int, checkIn: Date, points: int): int {
    var available := Available(p.lots, p.consumed, legacyUsed);
    if available < CapacityFor(p, checkIn) then points - available else points - CapacityFor(p, checkIn)
  }

  /** The shortfall is exact for the allocator: that many points added to a drawable lot make the
      allocation succeed, one fewer does not. */
  lemma ShortfallExact(p: Pool, checkIn: Date, k: LotKey, points: int, n: nat)
    requires Allocate(p, checkIn, points).None?
    requires Classify(MonthsOf(p.contracts), checkIn, k).Some?
    requires HasKey(p.lots, k) && Balance(p, k) >= 0
    ensures Allocate(TopUp(p, k, n), checkIn, points).Some? <==> n >= points - Min(points, CapacityFor(p, checkIn))
  {
    AllocateSucceeds(p, checkIn, points);
    AllocateSucceeds(TopUp(p, k, n), checkIn, points);
    TopUpCapacity(p, checkIn, k, n);
  }

  /** MinimumTopUp is what its name says: the least top-up that makes a refused stay fundable. */
  lemma MinimumTopUpExact(p: Pool, legacyUsed: int, checkIn: Date, k: LotKey, points: int, n: nat)
    requires points > 0
    requires FundStay(p, legacyUsed, checkIn, points).None?
    requires Classify(MonthsOf(p.contracts), checkIn, k).Some?
    requires HasKey(p.lots, k) && Balance(p, k) >= 0
    ensures FundStay(TopUp(p, k, n), legacyUsed, checkIn, points).Some?
            <==> n >= MinimumTopUp(p, legacyUsed, checkIn, points)
  {
    AllocateSucceeds(p, checkIn, points);
    AllocateSucceeds(TopUp(p, k, n), checkIn, points);
    TopUpCapacity(p, checkIn, k, n);
  }

  /** What a refusal reports is positive and never more than the true need. It is the true need
      exactly when the aggregate check passed, or the aggregate is no larger than the capacity. */
  lemma ShortByBound(p: Pool, legacyUsed: int, checkIn: Date, points: int)
    requires FundStay(p, legacyUsed, checkIn, points).None? && points > 0
    ensures 0 < ShortBy(p, legacyUsed, checkIn, points) <= MinimumTopUp(p, legacyUsed, checkIn, points)
    ensures ShortBy(p, legacyUsed, checkIn, points) == MinimumTopUp(p, legacyUsed, checkIn, points)
            <==> (points <= Available(p.lots, p.consumed, legacyUsed)
                  || Available(p.lots, p.consumed, legacyUsed) <= CapacityFor(p, checkIn))
  {
    AllocateSucceeds(p, checkIn, points);
    CapacityNonNegative(p, checkIn);
  }

  const STALE := LotKey(1, 2020)
  const FRESH := LotKey(1, 2026)

  function StalePool(): Pool {
    Pool([Contract(1, "", 0, 1, 0, 0, 0)], [Lot(STALE, 60), Lot(FRESH, 40)], [])
  }

  lemma StalePoolBalances()
    ensures MonthsOf(StalePool().contracts) == map[1 := 1]
    ensures TotalLots(StalePool().lots) == 100
    ensures Balance(StalePool(), STALE) == 60 && Balance(StalePool(), FRESH) == 40
  {
    var p := StalePool();
    assert p.lots[..1] == [Lot(STALE, 60)] && p.contracts[..0] == [];
    assert TotalLots(p.lots[..1]) == 60;
    assert Granted(p.lots[..1], STALE) == 60 && Granted(p.lots[..1], FRESH) == 0;
  }

  lemma StalePoolOffers(checkIn: Date)
    requires checkIn == Date(0, 2026, 6)
    ensures Offers(StalePool(), checkIn) == [Offer(FRESH, Current, 40)]
  {
    hide MonthsOf, Balance;
    StalePoolBalances();
    var p, o := StalePool(), Offer(FRESH, Current, 40);
    assert OfferAt(p, checkIn, STALE) == None && OfferAt(p, checkIn, FRESH) == Some(o);
    assert p.lots[..1] == [Lot(STALE, 60)];
    assert Collect(p, checkIn, p.lots[..1]) == [];
    assert Collect(p, checkIn, p.lots) == [o];
    assert Sorting.SortBy(OfferOrder, [o][..0]) == [];
  }

  /** A stay of 120 with 100 points on the books, 60 of them in a lot too old to draw on: the report
      says 20 short, and the member needs 80. */
  lemma ShortByUnderstates() returns (p: Pool, checkIn: Date)
    ensures FundStay(p, 0, checkIn, 120).None?
    ensures ShortBy(p, 0, checkIn, 120) == 20 && MinimumTopUp(p, 0, checkIn, 120) == 80
  {
    checkIn := Date(0, 2026, 6);
    p := StalePool();
    StalePoolBalances();
    StalePoolOffers(checkIn);
    assert Capacity([Offer(FRESH, Current, 40)]) == 40 + Capacity([]);
    assert CapacityFor(p, checkIn) == 40;
  }

  // ----- The dry run over a trip's stays

  datatype StayFunding = StayFunding(stay: int, fundable: bool, draws: seq<Draw>, shortBy: int)

  datatype Preview = Preview(stays: seq<StayFunding>, fundable: bool)

  /** What PreviewTripFunding decides: each unbooked stay in turn, stopping at the first refusal. */
  function PreviewFrom(p: Pool, legacyUsed: int, stays: seq<TripStay>): Preview
    decreases |stays|
  {
    if stays == [] then Preview([], true)
    else if stays[0].Booked() then PreviewFrom(p, legacyUsed, stays[1..])
    else
      var st := stays[0].row;
      match FundStay(p, legacyUsed, st.checkIn, st.points)
      case None => Preview([StayFunding(st.id, false, [], ShortBy(p, legacyUsed, st.checkIn, st.points))], false)
      case Some(draws) =>
        var rest := PreviewFrom(p.Spend(draws), legacyUsed, stays[1..]);
        Preview([StayFunding(st.id, true, draws, 0)] + rest.stays, rest.fundable)
  }
}
