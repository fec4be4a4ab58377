/** Which lots fund a stay: AllocateStayPoints, its specification, and what the greedy walk achieves. */
module Allocation {
  import opened Types
  import Sorting

  /** What a lot snapshot gives the allocator. */
  datatype Pool = Pool(contracts: seq<Contract>, lots: seq<Lot>, consumed: seq<Draw>) {
    function Spend(draws: seq<Draw>): Pool {
      this.(consumed := consumed + draws)
    }
  }

  // ----- Balances

  /** Use-year month by contract id; a later contract with the same id wins. */
  function MonthsOf(contracts: seq<Contract>): map<int, int> {
    if contracts == [] then map[]
    else
      var c := contracts[|contracts| - 1];
      MonthsOf(contracts[..|contracts| - 1])[c.id := c.useYearMonth]
  }

  function Granted(lots: seq<Lot>, k: LotKey): int {
    if lots == [] then 0
    else
      var last := lots[|lots| - 1];
      Granted(lots[..|lots| - 1], k) + if last.key == k then last.points else 0
  }

  function Drawn(draws: seq<Draw>, k: LotKey): int {
    if draws == [] then 0
    else
      var last := draws[|draws| - 1];
      Drawn(draws[..|draws| - 1], k) + if last.key == k then last.points else 0
  }

  function TotalDrawn(draws: seq<Draw>): int {
    if draws == [] then 0 else TotalDrawn(draws[..|draws| - 1]) + draws[|draws| - 1].points
  }

  function Balance(p: Pool, k: LotKey): int {
    Granted(p.lots, k) - Drawn(p.consumed, k)
  }

  predicate HasKey(lots: seq<Lot>, k: LotKey) {
    lots != [] && (lots[|lots| - 1].key == k || HasKey(lots[..|lots| - 1], k))
  }

  // ----- Eligibility

  /** How a lot of this key would be drawn on for a check-in date, if at all. */
  function Classify(months: map<int, int>, checkIn: Date, k: LotKey): Option<Disposition> {
    if k.contract !in months then None
    else
      var uy := UseYearForDate(checkIn, months[k.contract]);
      if k.year == uy - 1 then Some(Banked)
      else if k.year == uy then Some(Current)
      else if k.year == uy + 1 then Some(Borrowed)
      else None
  }

  predicate Eligible(p: Pool, checkIn: Date, k: LotKey) {
    HasKey(p.lots, k) && Balance(p, k) > 0 && Classify(MonthsOf(p.contracts), checkIn, k).Some?
  }

  /** An eligible lot and its remaining balance. */
  datatype Offer = Offer(key: LotKey, disposition: Disposition, balance: int)

  function OfferOrder(o: Offer): (int, int) {
    (RankOf(o.disposition), o.key.contract)
  }

  function OfferAt(p: Pool, checkIn: Date, k: LotKey): Option<Offer> {
    if Balance(p, k) <= 0 then None
    else match Classify(MonthsOf(p.contracts), checkIn, k)
      case None => None
      case Some(d) => Some(Offer(k, d, Balance(p, k)))
  }

  /** One offer for each eligible key among the rows, in the order the keys first appear. */
  function Collect(p: Pool, checkIn: Date, rows: seq<Lot>): seq<Offer> {
    if rows == [] then []
    else
      var sofar := Collect(p, checkIn, rows[..|rows| - 1]);
      match OfferAt(p, checkIn, rows[|rows| - 1].key)
      case None => sofar
      case Some(o) => if o in sofar then sofar else sofar + [o]
  }

  function Offers(p: Pool, checkIn: Date): seq<Offer> {
    Sorting.SortBy(OfferOrder, Collect(p, checkIn, p.lots))
  }

  // ----- The walk

  /** Takes what is needed from each offer in turn; None when the offers run out first. */
  function Walk(offers: seq<Offer>, need: int): Option<seq<Draw>> {
    if need == 0 then Some([])
    else if offers == [] then None
    else
      var o := offers[0];
      var n := Min(need, o.balance);
      match Walk(offers[1..], need - n)
      case None => None
      case Some(rest) => Some([Draw(o.key, o.disposition, n)] + rest)
  }

  function Allocate(p: Pool, checkIn: Date, points: int): Option<seq<Draw>> {
    if points <= 0 then Some([]) else Walk(Offers(p, checkIn), points)
  }

  function Capacity(offers: seq<Offer>): int {
    if offers == [] then 0 else offers[0].balance + Capacity(offers[1..])
  }

  // ----- Collected offers are exactly the eligible lots, once each

  lemma {:induction false} CollectExact(p: Pool, checkIn: Date, rows: seq<Lot>)
    ensures forall o :: o in Collect(p, checkIn, rows) <==>
                        OfferAt(p, checkIn, o.key) == Some(o) && HasKey(rows, o.key)
    ensures Sorting.DistinctKeys(OfferOrder, Collect(p, checkIn, rows))
  {
    if rows != [] {
      CollectExact(p, checkIn, rows[..|rows| - 1]);
    }
  }

  /** The offers are exactly the eligible lots, once each, in strict (rank, contract id) order. */
  lemma OffersClassified(p: Pool, checkIn: Date)
    ensures forall o :: o in Offers(p, checkIn) <==>
                        OfferAt(p, checkIn, o.key) == Some(o) && HasKey(p.lots, o.key)
    ensures Sorting.StrictlySorted(OfferOrder, Offers(p, checkIn))
  {
    var c := Collect(p, checkIn, p.lots);
    CollectExact(p, checkIn, p.lots);
    Sorting.PermutationIsStrict(OfferOrder, c, Offers(p, checkIn));
    forall o: Offer ensures o in Offers(p, checkIn) <==> o in c {
      assert o in multiset(c) <==> o in multiset(Offers(p, checkIn));
    }
  }

  /** Months since a lot's use year began, at check-in. */
  function AgeInMonths(months: map<int, int>, checkIn: Date, k: LotKey): int
    requires k.contract in months
  {
    12 * checkIn.year + checkIn.month - (12 * k.year + months[k.contract])
  }

  ghost predicate MonthsFit(months: map<int, int>, checkIn: Date) {
    1 <= checkIn.month <= 12 && forall id :: id in months ==> 1 <= months[id] <= 12
  }

  lemma ClassifiedByAge(months: map<int, int>, checkIn: Date, k: LotKey)
    requires MonthsFit(months, checkIn)
    ensures Classify(months, checkIn, k).Some? <==> k.contract in months && -12 <= AgeInMonths(months, checkIn, k) < 24
    ensures k.contract in months ==>
              var age, d := AgeInMonths(months, checkIn, k), Classify(months, checkIn, k);
              && (d == Some(Banked) <==> 12 <= age < 24)
              && (d == Some(Current) <==> 0 <= age < 12)
              && (d == Some(Borrowed) <==> -12 <= age < 0)
  {
    if k.contract in months {
      UseYearHoldsDate(checkIn, months[k.contract], UseYearForDate(checkIn, months[k.contract]));
    }
  }

  /** A positive balance, and the disposition that goes with the age of the lot's use year. */
  ghost predicate IsOffer(p: Pool, checkIn: Date, o: Offer) {
    var months := MonthsOf(p.contracts);
    && o.balance == Granted(p.lots, o.key) - Drawn(p.consumed, o.key) > 0
    && o.key.contract in months
    && var age := AgeInMonths(months, checkIn, o.key);
       && -12 <= age < 24
       && o.disposition == if age >= 12 then Banked else if age >= 0 then Current else Borrowed
  }

  /** Older use years first where the dispositions differ, and lower contract ids where they do not. */
  ghost predicate DrawnBefore(months: map<int, int>, checkIn: Date, a: Offer, b: Offer) {
    && a.key.contract in months && b.key.contract in months
    && if a.disposition == b.disposition then a.key.contract < b.key.contract
       else AgeInMonths(months, checkIn, a.key) > AgeInMonths(months, checkIn, b.key)
  }

  /** The offers, by the calendar: every lot of a known contract with a positive balance, whose use year began
      less than 24 months before the check-in's month and no more than 12 after it. It is banked when that use
      year is over, borrowed when it has not begun, and current in between. */
  lemma OffersExact(p: Pool, checkIn: Date)
    requires MonthsFit(MonthsOf(p.contracts), checkIn)
    ensures forall o: Offer :: o in Offers(p, checkIn) <==>
              HasKey(p.lots, o.key) && IsOffer(p, checkIn, o)
    ensures var os := Offers(p, checkIn);
            forall i, j :: 0 <= i < j < |os| ==> DrawnBefore(MonthsOf(p.contracts), checkIn, os[i], os[j])
  {
    var months, os := MonthsOf(p.contracts), Offers(p, checkIn);
    OffersClassified(p, checkIn);
    hide Offers, Classify, Granted, Drawn, HasKey, MonthsOf, MonthsFit, AgeInMonths;
    forall o: Offer ensures o in os <==> HasKey(p.lots, o.key) && IsOffer(p, checkIn, o) {
      ClassifiedByAge(months, checkIn, o.key);
    }
    forall i, j | 0 <= i < j < |os| ensures DrawnBefore(months, checkIn, os[i], os[j]) {
      assert os[i] in os && os[j] in os;
      assert Sorting.Less(OfferOrder(os[i]), OfferOrder(os[j]));
    }
  }

  // ----- Fundings: any assignment of draws within the eligible balances

  /** The draw is from an eligible lot, under the disposition that lot has for this check-in. */
  predicate Permitted(p: Pool, checkIn: Date, d: Draw) {
    Eligible(p, checkIn, d.key) && Classify(MonthsOf(p.contracts), checkIn, d.key) == Some(d.disposition)
  }

  ghost predicate IsFunding(p: Pool, checkIn: Date, points: int, ds: seq<Draw>) {
    && (forall i :: 0 <= i < |ds| ==> ds[i].points >= 0 && Permitted(p, checkIn, ds[i]))
    && (forall k :: Eligible(p, checkIn, k) ==> Drawn(ds, k) <= Balance(p, k))
    && TotalDrawn(ds) == points
  }

  function DrawOrder(d: Draw): (int, int) {
    (RankOf(d.disposition), d.key.contract)
  }

  /** Points drawn from lots at or before a cut-off in the (rank, contract id) order. */
  function DrawnUpTo(ds: seq<Draw>, cut: (int, int)): int {
    if ds == [] then 0
    else
      var last := ds[|ds| - 1];
      DrawnUpTo(ds[..|ds| - 1], cut) + if Sorting.Less(cut, DrawOrder(last)) then 0 else last.points
  }

  function DrawnAs(ds: seq<Draw>, disposition: Disposition): int {
    if ds == [] then 0
    else
      var last := ds[|ds| - 1];
      DrawnAs(ds[..|ds| - 1], disposition) + if last.disposition == disposition then last.points else 0
  }

  function CapacityUpTo(offers: seq<Offer>, cut: (int, int)): int {
    if offers == [] then 0
    else
      CapacityUpTo(offers[1..], cut) + if Sorting.Less(cut, OfferOrder(offers[0])) then 0 else offers[0].balance
  }

  lemma {:induction false} DrawnConcat(a: seq<Draw>, b: seq<Draw>, k: LotKey)
    ensures Drawn(a + b, k) == Drawn(a, k) + Drawn(b, k)
    ensures TotalDrawn(a + b) == TotalDrawn(a) + TotalDrawn(b)
  {
    if b == [] {
      assert a + b == a;
    } else {
      DrawnConcat(a, b[..|b| - 1], k);
      assert (a + b)[..|a + b| - 1] == a + b[..|b| - 1];
    }
  }

  lemma {:induction false} DrawnUpToConcat(a: seq<Draw>, b: seq<Draw>, cut: (int, int))
    ensures DrawnUpTo(a + b, cut) == DrawnUpTo(a, cut) + DrawnUpTo(b, cut)
  {
    if b == [] {
      assert a + b == a;
    } else {
      DrawnUpToConcat(a, b[..|b| - 1], cut);
      assert (a + b)[..|a + b| - 1] == a + b[..|b| - 1];
    }
  }

  // ----- The walk takes as much as it can from every initial part of the order

  lemma {:induction false} CapacityAtLeast(offers: seq<Offer>, cut: (int, int))
    requires forall o :: o in offers ==> o.balance > 0
    ensures 0 <= CapacityUpTo(offers, cut) <= Capacity(offers)
    ensures offers == [] || Capacity(offers) > 0
    ensures (forall o :: o in offers ==> Sorting.Less(cut, OfferOrder(o))) ==> CapacityUpTo(offers, cut) == 0
  {
    if offers != [] {
      CapacityAtLeast(offers[1..], cut);
    }
  }

  lemma {:induction false} WalkSucceeds(offers: seq<Offer>, need: int)
    requires need >= 0 && forall o :: o in offers ==> o.balance > 0
    ensures Walk(offers, need).Some? <==> need <= Capacity(offers)
  {
    CapacityAtLeast(offers, (0, 0));
    if need != 0 && offers != [] {
      CapacityAtLeast(offers[1..], (0, 0));
      WalkSucceeds(offers[1..], need - Min(need, offers[0].balance));
    }
  }

  lemma {:induction false} WalkTakesFirst(offers: seq<Offer>, need: int, cut: (int, int))
    requires need >= 0 && Walk(offers, need).Some?
    requires Sorting.StrictlySorted(OfferOrder, offers) && forall o :: o in offers ==> o.balance > 0
    ensures DrawnUpTo(Walk(offers, need).value, cut) == Min(need, CapacityUpTo(offers, cut))
  {
    CapacityAtLeast(offers, cut);
    if need != 0 {
      var o := offers[0];
      var n := Min(need, o.balance);
      var rest := Walk(offers[1..], need - n).value;
      var d := Draw(o.key, o.disposition, n);
      CapacityAtLeast(offers[1..], cut);
      WalkTakesFirst(offers[1..], need - n, cut);
      DrawnUpToConcat([d], rest, cut);
      if Sorting.Less(cut, OfferOrder(o)) {
        forall x | x in offers[1..] ensures Sorting.Less(cut, OfferOrder(x)) {
          var i :| 1 <= i < |offers| && offers[i] == x;
          assert Sorting.Less(OfferOrder(offers[0]), OfferOrder(offers[i]));
        }
      }
    }
  }

  ghost predicate DistinctOffers(offers: seq<Offer>) {
    forall i, j :: 0 <= i < j < |offers| ==> offers[i].key != offers[j].key
  }

  ghost predicate Covered(offers: seq<Offer>, d: Draw) {
    exists i :: 0 <= i < |offers| && offers[i].key == d.key && offers[i].disposition == d.disposition
  }

  ghost predicate Offered(offers: seq<Offer>, k: LotKey) {
    exists i :: 0 <= i < |offers| && offers[i].key == k
  }

  /** Positive draws on the offers, within their balances, that come to what is needed. */
  ghost predicate StaysWithin(offers: seq<Offer>, need: int, ds: seq<Draw>) {
    && TotalDrawn(ds) == need
    && (forall d :: d in ds ==> d.points > 0 && Covered(offers, d))
    && (forall i :: 0 <= i < |offers| ==> Drawn(ds, offers[i].key) <= offers[i].balance)
    && (forall k :: !Offered(offers, k) ==> Drawn(ds, k) == 0)
  }

  lemma WithinStep(offers: seq<Offer>, need: int, rest: seq<Draw>, d: Draw)
    requires need > 0 && offers != [] && DistinctOffers(offers) && offers[0].balance > 0
    requires d == Draw(offers[0].key, offers[0].disposition, Min(need, offers[0].balance))
    requires StaysWithin(offers[1..], need - d.points, rest)
    ensures StaysWithin(offers, need, [d] + rest)
  {
    var tail := offers[1..];
    assert forall i :: 0 <= i < |tail| ==> tail[i] == offers[i + 1];
    assert !Offered(tail, d.key);
    forall x | x in rest ensures Covered(offers, x) {
      var i :| 0 <= i < |tail| && tail[i].key == x.key && tail[i].disposition == x.disposition;
      assert offers[i + 1].key == x.key;
    }
    assert Covered(offers, d);
    WalkTotals(d, rest);
    forall i | 0 <= i < |offers| ensures Drawn([d] + rest, offers[i].key) <= offers[i].balance {
      DrawnAfter(d, rest, offers[i].key);
      if i > 0 { assert offers[i] == tail[i - 1]; }
    }
    forall k | !Offered(offers, k) ensures Drawn([d] + rest, k) == 0 {
      assert offers[0].key != k && !Offered(tail, k);
      DrawnAfter(d, rest, k);
    }
  }

  lemma {:induction false} WalkStaysWithin(offers: seq<Offer>, need: int)
    requires need >= 0 && Walk(offers, need).Some?
    requires DistinctOffers(offers) && forall o :: o in offers ==> o.balance > 0
    ensures StaysWithin(offers, need, Walk(offers, need).value)
  {
    if need != 0 {
      var o := offers[0];
      var n := Min(need, o.balance);
      WalkStaysWithin(offers[1..], need - n);
      WithinStep(offers, need, Walk(offers[1..], need - n).value, Draw(o.key, o.disposition, n));
    }
  }

  lemma DrawnAfter(d: Draw, rest: seq<Draw>, k: LotKey)
    ensures Drawn([d] + rest, k) == Drawn(rest, k) + if k == d.key then d.points else 0
  {
    DrawnConcat([d], rest, k);
  }

  lemma WalkTotals(d: Draw, rest: seq<Draw>)
    ensures TotalDrawn([d] + rest) == d.points + TotalDrawn(rest)
  {
    DrawnConcat([d], rest, d.key);
  }

  // ----- No funding draws more from any initial part of the order

  function Without(ds: seq<Draw>, k: LotKey): seq<Draw> {
    if ds == [] then []
    else
      var front := Without(ds[..|ds| - 1], k);
      if ds[|ds| - 1].key == k then front else front + [ds[|ds| - 1]]
  }

  lemma {:induction false} WithoutMembers(ds: seq<Draw>, k: LotKey)
    ensures forall d :: d in Without(ds, k) <==> d in ds && d.key != k
  {
    if ds != [] {
      WithoutMembers(ds[..|ds| - 1], k);
      assert ds == ds[..|ds| - 1] + [ds[|ds| - 1]];
    }
  }

  lemma {:induction false} WithoutKeepsOthers(ds: seq<Draw>, k: LotKey, other: LotKey)
    requires other != k
    ensures Drawn(Without(ds, k), other) == Drawn(ds, other)
  {
    if ds != [] {
      WithoutKeepsOthers(ds[..|ds| - 1], k, other);
      if ds[|ds| - 1].key != k {
        DrawnConcat(Without(ds[..|ds| - 1], k), [ds[|ds| - 1]], other);
      }
    }
  }

  lemma {:induction false} WithoutSplits(ds: seq<Draw>, o: Offer, cut: (int, int))
    requires forall i :: 0 <= i < |ds| && ds[i].key == o.key ==> ds[i].disposition == o.disposition
    ensures TotalDrawn(ds) == TotalDrawn(Without(ds, o.key)) + Drawn(ds, o.key)
    ensures DrawnUpTo(ds, cut) ==
            DrawnUpTo(Without(ds, o.key), cut) + (if Sorting.Less(cut, OfferOrder(o)) then 0 else Drawn(ds, o.key))
  {
    if ds != [] {
      var front, last := ds[..|ds| - 1], ds[|ds| - 1];
      WithoutSplits(front, o, cut);
      if last.key != o.key {
        DrawnConcat(Without(front, o.key), [last], o.key);
        DrawnUpToConcat(Without(front, o.key), [last], cut);
      }
    }
  }

  lemma {:induction false} CoveredBounds(offers: seq<Offer>, ds: seq<Draw>, cut: (int, int))
    requires DistinctOffers(offers)
    requires forall i :: 0 <= i < |ds| ==> Covered(offers, ds[i])
    requires forall i :: 0 <= i < |offers| ==> Drawn(ds, offers[i].key) <= offers[i].balance
    ensures DrawnUpTo(ds, cut) <= CapacityUpTo(offers, cut)
    ensures TotalDrawn(ds) <= Capacity(offers)
  {
    if offers != [] {
      var o := offers[0];
      var w := Without(ds, o.key);
      WithoutSplits(ds, o, cut);
      WithoutMembers(ds, o.key);
      forall i | 0 <= i < |w| ensures Covered(offers[1..], w[i]) {
        assert w[i] in ds;
        var j :| 0 <= j < |offers| && offers[j].key == w[i].key && offers[j].disposition == w[i].disposition;
        assert offers[1..][j - 1] == offers[j];
      }
      forall i | 0 <= i < |offers[1..]| ensures Drawn(w, offers[1..][i].key) <= offers[1..][i].balance {
        assert offers[1..][i] == offers[i + 1];
        WithoutKeepsOthers(ds, o.key, offers[i + 1].key);
      }
      CoveredBounds(offers[1..], w, cut);
    }
  }

  lemma {:induction false} WalkKeepsOrder(offers: seq<Offer>, need: int)
    requires need >= 0 && Walk(offers, need).Some?
    requires Sorting.StrictlySorted(OfferOrder, offers)
    ensures |Walk(offers, need).value| <= |offers|
    ensures forall i :: 0 <= i < |Walk(offers, need).value| ==>
                          DrawOrder(Walk(offers, need).value[i]) == OfferOrder(offers[i])
    ensures Sorting.StrictlySorted(DrawOrder, Walk(offers, need).value)
  {
    if need == 0 {
      assert Walk(offers, need) == Some([]);
    } else {
      var o := offers[0];
      var n := Min(need, o.balance);
      var rest := Walk(offers[1..], need - n).value;
      var ds := [Draw(o.key, o.disposition, n)] + rest;
      WalkKeepsOrder(offers[1..], need - n);
      assert Walk(offers, need) == Some(ds);
      forall i | 0 <= i < |ds| ensures DrawOrder(ds[i]) == OfferOrder(offers[i]) {
        if i > 0 {
          assert ds[i] == rest[i - 1] && offers[1..][i - 1] == offers[i];
        }
      }
      forall i, j | 0 <= i < j < |ds| ensures Sorting.Less(DrawOrder(ds[i]), DrawOrder(ds[j])) {
        assert Sorting.Less(OfferOrder(offers[i]), OfferOrder(offers[j]));
      }
    }
  }

  // ----- Main results about the allocator

  /** Eligible offers have distinct keys, and a draw that a funding may make is one of them. */
  lemma OffersCover(p: Pool, checkIn: Date)
    ensures DistinctOffers(Offers(p, checkIn))
    ensures forall i :: 0 <= i < |Offers(p, checkIn)| ==>
              && Offers(p, checkIn)[i].balance == Balance(p, Offers(p, checkIn)[i].key)
              && Eligible(p, checkIn, Offers(p, checkIn)[i].key)
    ensures forall d: Draw :: Covered(Offers(p, checkIn), d) <==> Permitted(p, checkIn, d)
  {
    OffersClassified(p, checkIn);
    hide Offers, Classify, Balance, MonthsOf, HasKey, OfferOrder;
    var os := Offers(p, checkIn);
    forall i | 0 <= i < |os|
      ensures os[i].balance == Balance(p, os[i].key) && Eligible(p, checkIn, os[i].key)
              && Classify(MonthsOf(p.contracts), checkIn, os[i].key) == Some(os[i].disposition)
    {
      assert os[i] in os;
    }
    forall d: Draw | Permitted(p, checkIn, d) ensures Covered(os, d)
    {
      var o := Offer(d.key, d.disposition, Balance(p, d.key));
      assert OfferAt(p, checkIn, o.key) == Some(o);
      var i :| 0 <= i < |os| && os[i] == o;
    }
  }

  /** Whatever is allocated is a funding: positive draws, within eligible balances, summing to the
      points asked for, in strict (rank, contract id) order. */
  lemma AllocateFunds(p: Pool, checkIn: Date, points: int)
    requires points > 0 && Allocate(p, checkIn, points).Some?
    ensures var ds := Allocate(p, checkIn, points).value;
            && IsFunding(p, checkIn, points, ds)
            && (forall d :: d in ds ==> d.points > 0)
            && Sorting.StrictlySorted(DrawOrder, ds)
  {
    var os := Offers(p, checkIn);
    OffersClassified(p, checkIn);
    OffersCover(p, checkIn);
    WalkStaysWithin(os, points);
    WalkKeepsOrder(os, points);
    CoveredIsFunding(p, checkIn, points, os, Walk(os, points).value);
  }

  lemma CoveredIsFunding(p: Pool, checkIn: Date, points: int, os: seq<Offer>, ds: seq<Draw>)
    requires forall d: Draw :: Covered(os, d) <==> Permitted(p, checkIn, d)
    requires forall i :: 0 <= i < |os| ==> os[i].balance == Balance(p, os[i].key)
    requires forall i :: 0 <= i < |os| ==> Drawn(ds, os[i].key) <= os[i].balance
    requires forall d :: d in ds ==> d.points > 0 && Covered(os, d)
    requires TotalDrawn(ds) == points
    ensures IsFunding(p, checkIn, points, ds)
  {
    forall k | Eligible(p, checkIn, k) ensures Drawn(ds, k) <= Balance(p, k) {
      var d := Draw(k, Classify(MonthsOf(p.contracts), checkIn, k).value, 0);
      assert Permitted(p, checkIn, d);
      var i :| 0 <= i < |os| && os[i].key == k && os[i].disposition == d.disposition;
    }
  }

  /** Every funding is covered by the offers, so its points are bounded by their capacity. */
  lemma FundingBounds(p: Pool, checkIn: Date, points: int, ds: seq<Draw>, cut: (int, int))
    requires IsFunding(p, checkIn, points, ds)
    ensures points <= Capacity(Offers(p, checkIn))
    ensures DrawnUpTo(ds, cut) <= CapacityUpTo(Offers(p, checkIn), cut)
  {
    OffersCover(p, checkIn);
    forall i | 0 <= i < |ds| ensures Covered(Offers(p, checkIn), ds[i]) {}
    CoveredBounds(Offers(p, checkIn), ds, cut);
  }

  lemma AllocateSucceeds(p: Pool, checkIn: Date, points: int)
    ensures Allocate(p, checkIn, points).Some? <==> points <= 0 || points <= Capacity(Offers(p, checkIn))
  {
    OffersClassified(p, checkIn);
    if points > 0 {
      WalkSucceeds(Offers(p, checkIn), points);
    }
  }

  /** Completeness: a stay is refused exactly when no funding of it exists. */
  lemma AllocateComplete(p: Pool, checkIn: Date, points: int)
    requires points > 0
    ensures Allocate(p, checkIn, points).None? <==> !exists ds :: IsFunding(p, checkIn, points, ds)
  {
    AllocateSucceeds(p, checkIn, points);
    if Allocate(p, checkIn, points).Some? {
      AllocateFunds(p, checkIn, points);
    }
    if ds :| IsFunding(p, checkIn, points, ds) {
      FundingBounds(p, checkIn, points, ds, (0, 0));
    }
  }

  lemma {:induction false} DrawnUpToTotal(ds: seq<Draw>, cut: (int, int))
    requires forall i :: 0 <= i < |ds| ==> ds[i].points >= 0
    ensures 0 <= DrawnUpTo(ds, cut) <= TotalDrawn(ds)
  {
    if ds != [] {
      DrawnUpToTotal(ds[..|ds| - 1], cut);
    }
  }

  /** Optimality: against any funding of the same stay, the allocator draws at least as much from the
      lots at or before every cut-off in the (rank, contract id) order. */
  lemma AllocateDominates(p: Pool, checkIn: Date, points: int, ds: seq<Draw>, cut: (int, int))
    requires points > 0 && IsFunding(p, checkIn, points, ds)
    ensures Allocate(p, checkIn, points).Some?
    ensures DrawnUpTo(Allocate(p, checkIn, points).value, cut) >= DrawnUpTo(ds, cut)
  {
    AllocateSucceeds(p, checkIn, points);
    OffersClassified(p, checkIn);
    FundingBounds(p, checkIn, points, ds, cut);
    WalkTakesFirst(Offers(p, checkIn), points, cut);
    DrawnUpToTotal(ds, cut);
  }

  lemma {:induction false} DrawnByDisposition(ds: seq<Draw>, bound: int)
    requires forall i :: 0 <= i < |ds| ==> ds[i].disposition != Unset && ds[i].key.contract <= bound
    ensures DrawnAs(ds, Banked) == DrawnUpTo(ds, (0, bound))
    ensures DrawnAs(ds, Borrowed) == TotalDrawn(ds) - DrawnUpTo(ds, (1, bound))
    ensures DrawnAs(ds, Banked) + DrawnAs(ds, Current) + DrawnAs(ds, Borrowed) == TotalDrawn(ds)
  {
    if ds != [] {
      DrawnByDisposition(ds[..|ds| - 1], bound);
    }
  }

  function MaxContract(ds: seq<Draw>): (r: int)
    ensures forall i :: 0 <= i < |ds| ==> ds[i].key.contract <= r
  {
    if ds == [] then 0
    else
      var front, last := MaxContract(ds[..|ds| - 1]), ds[|ds| - 1].key.contract;
      if front < last then last else front
  }

  lemma FundingDispositions(p: Pool, checkIn: Date, points: int, ds: seq<Draw>)
    requires IsFunding(p, checkIn, points, ds)
    ensures TotalDrawn(ds) == points
    ensures forall i :: 0 <= i < |ds| ==> ds[i].disposition != Unset
  {
    assert forall i :: 0 <= i < |ds| ==> Permitted(p, checkIn, ds[i]);
  }

  /** Banked points, which expire first, are used as much as any funding could; borrowed points as
      little as any funding must. */
  lemma AllocateSpendsBankedFirst(p: Pool, checkIn: Date, points: int, ds: seq<Draw>)
    requires points > 0 && IsFunding(p, checkIn, points, ds)
    ensures Allocate(p, checkIn, points).Some?
    ensures DrawnAs(Allocate(p, checkIn, points).value, Banked) >= DrawnAs(ds, Banked)
    ensures DrawnAs(Allocate(p, checkIn, points).value, Borrowed) <= DrawnAs(ds, Borrowed)
  {
    hide Allocate, Permitted, IsFunding;
    AllocateDominates(p, checkIn, points, ds, (0, 0));
    AllocateFunds(p, checkIn, points);
    var best := Allocate(p, checkIn, points).value;
    var bound := if MaxContract(ds) < MaxContract(best) then MaxContract(best) else MaxContract(ds);
    AllocateDominates(p, checkIn, points, ds, (0, bound));
    AllocateDominates(p, checkIn, points, ds, (1, bound));
    FundingDispositions(p, checkIn, points, ds);
    FundingDispositions(p, checkIn, points, best);
    DrawnByDisposition(ds, bound);
    DrawnByDisposition(best, bound);
  }

  // ----- Only the balances matter

  ghost predicate SameBalances(p: Pool, q: Pool) {
    && MonthsOf(p.contracts) == MonthsOf(q.contracts)
    && (forall k :: HasKey(p.lots, k) == HasKey(q.lots, k))
    && (forall k :: HasKey(p.lots, k) ==> Balance(p, k) == Balance(q, k))
  }

  /** The draws depend only on the contract-to-month map, on which lots exist, and on the net balance
      of each: not on how rows are ordered, split or merged. */
  lemma AllocateByBalances(p: Pool, q: Pool, checkIn: Date, points: int)
    requires SameBalances(p, q)
    ensures Offers(p, checkIn) == Offers(q, checkIn)
    ensures Allocate(p, checkIn, points) == Allocate(q, checkIn, points)
  {
    OffersClassified(p, checkIn);
    OffersClassified(q, checkIn);
    forall o: Offer ensures o in Offers(p, checkIn) <==> o in Offers(q, checkIn) {
      if HasKey(p.lots, o.key) {
        assert OfferAt(p, checkIn, o.key) == OfferAt(q, checkIn, o.key);
      }
    }
    Sorting.StrictUnique(OfferOrder, Offers(p, checkIn), Offers(q, checkIn));
  }

  lemma {:induction false} GrantedConcat(a: seq<Lot>, b: seq<Lot>, k: LotKey)
    ensures Granted(a + b, k) == Granted(a, k) + Granted(b, k)
    ensures HasKey(a + b, k) <==> HasKey(a, k) || HasKey(b, k)
  {
    if b == [] {
      assert a + b == a;
    } else {
      GrantedConcat(a, b[..|b| - 1], k);
      assert (a + b)[..|a + b| - 1] == a + b[..|b| - 1];
    }
  }

  lemma Unpick<T>(a: seq<T>, b: seq<T>) returns (l: seq<T>, r: seq<T>)
    requires a != [] && multiset(a) == multiset(b)
    ensures b == l + [a[|a| - 1]] + r
    ensures multiset(a[..|a| - 1]) == multiset(l + r)
  {
    var x := a[|a| - 1];
    assert a == a[..|a| - 1] + [x];
    assert x in multiset(b);
    var i :| 0 <= i < |b| && b[i] == x;
    l, r := b[..i], b[i + 1..];
    assert b == l + [x] + r;
    assert multiset(b) == multiset(l) + multiset{x} + multiset(r);
    assert multiset(l + r) == multiset(b) - multiset{x};
  }

  lemma {:induction false} GrantedPermuted(a: seq<Lot>, b: seq<Lot>, k: LotKey)
    requires multiset(a) == multiset(b)
    ensures Granted(a, k) == Granted(b, k) && HasKey(a, k) == HasKey(b, k)
  {
    if a == [] {
      assert b == [] by { assert |multiset(a)| == |multiset(b)|; }
    } else {
      var l, r := Unpick(a, b);
      GrantedPermuted(a[..|a| - 1], l + r, k);
      GrantedConcat(l, r, k);
      GrantedConcat(l + [a[|a| - 1]], r, k);
      GrantedConcat(l, [a[|a| - 1]], k);
    }
  }

  lemma {:induction false} DrawnPermuted(a: seq<Draw>, b: seq<Draw>, k: LotKey)
    requires multiset(a) == multiset(b)
    ensures Drawn(a, k) == Drawn(b, k)
  {
    if a == [] {
      assert b == [] by { assert |multiset(a)| == |multiset(b)|; }
    } else {
      var l, r := Unpick(a, b);
      DrawnPermuted(a[..|a| - 1], l + r, k);
      DrawnConcat(l, r, k);
      DrawnConcat(l + [a[|a| - 1]], r, k);
      DrawnConcat(l, [a[|a| - 1]], k);
    }
  }

  ghost predicate DistinctContracts(cs: seq<Contract>) {
    forall i, j :: 0 <= i < j < |cs| ==> cs[i].id != cs[j].id
  }

  lemma {:induction false} MonthsExact(cs: seq<Contract>)
    requires DistinctContracts(cs)
    ensures forall c :: c in cs ==> c.id in MonthsOf(cs) && MonthsOf(cs)[c.id] == c.useYearMonth
    ensures forall id :: id in MonthsOf(cs) ==> exists c :: c in cs && c.id == id
  {
    if cs != [] {
      MonthsExact(cs[..|cs| - 1]);
      assert cs == cs[..|cs| - 1] + [cs[|cs| - 1]];
      forall id | id in MonthsOf(cs) ensures exists c :: c in cs && c.id == id {
        if id == cs[|cs| - 1].id {
          assert cs[|cs| - 1] in cs;
        } else {
          assert id in MonthsOf(cs[..|cs| - 1]);
          var c :| c in cs[..|cs| - 1] && c.id == id;
          assert c in cs;
        }
      }
    }
  }

  lemma SameMonths(a: seq<Contract>, b: seq<Contract>)
    requires DistinctContracts(a) && DistinctContracts(b)
    requires forall c :: c in a <==> c in b
    ensures MonthsOf(a) == MonthsOf(b)
  {
    MonthsExact(a);
    MonthsExact(b);
    forall id | id in MonthsOf(a) ensures id in MonthsOf(b) && MonthsOf(a)[id] == MonthsOf(b)[id] {
      var c :| c in a && c.id == id;
    }
    forall id | id in MonthsOf(b) ensures id in MonthsOf(a) {
      var c :| c in b && c.id == id;
    }
  }

  /** Permuting contracts (their ids are a primary key), lots or consumed draws changes nothing. */
  lemma AllocatePermuted(p: Pool, q: Pool, checkIn: Date, points: int)
    requires DistinctContracts(p.contracts) && DistinctContracts(q.contracts)
    requires multiset(p.contracts) == multiset(q.contracts)
    requires multiset(p.lots) == multiset(q.lots) && multiset(p.consumed) == multiset(q.consumed)
    ensures Allocate(p, checkIn, points) == Allocate(q, checkIn, points)
  {
    forall c ensures c in p.contracts <==> c in q.contracts {
      assert c in multiset(p.contracts) <==> c in multiset(q.contracts);
    }
    SameMonths(p.contracts, q.contracts);
    forall k ensures HasKey(p.lots, k) == HasKey(q.lots, k) && Balance(p, k) == Balance(q, k) {
      GrantedPermuted(p.lots, q.lots, k);
      DrawnPermuted(p.consumed, q.consumed, k);
    }
    AllocateByBalances(p, q, checkIn, points);
  }

  lemma GrantedSplit(l: seq<Lot>, r: seq<Lot>, k: LotKey, a: int, b: int, x: LotKey)
    ensures Granted(l + [Lot(k, a), Lot(k, b)] + r, x) == Granted(l + [Lot(k, a + b)] + r, x)
    ensures HasKey(l + [Lot(k, a), Lot(k, b)] + r, x) == HasKey(l + [Lot(k, a + b)] + r, x)
  {
    GrantedConcat(l + [Lot(k, a + b)], r, x);
    GrantedConcat(l + [Lot(k, a), Lot(k, b)], r, x);
    assert l + [Lot(k, a), Lot(k, b)] == l + [Lot(k, a)] + [Lot(k, b)];
    GrantedConcat(l + [Lot(k, a)], [Lot(k, b)], x);
    GrantedConcat(l, [Lot(k, a)], x);
    GrantedConcat(l, [Lot(k, a + b)], x);
  }

  lemma DrawnSplit(l: seq<Draw>, r: seq<Draw>, whole: Draw, a: Draw, b: Draw, x: LotKey)
    requires whole.key == a.key == b.key && whole.points == a.points + b.points
    ensures Drawn(l + [a, b] + r, x) == Drawn(l + [whole] + r, x)
  {
    DrawnConcat(l + [whole], r, x);
    DrawnConcat(l + [a, b], r, x);
    assert l + [a, b] == l + [a] + [b];
    DrawnConcat(l + [a], [b], x);
    DrawnConcat(l, [a], x);
    DrawnConcat(l, [whole], x);
  }

  /** Splitting a lot row in two, or merging two, changes nothing. */
  lemma AllocateSplitLot(p: Pool, l: seq<Lot>, r: seq<Lot>, k: LotKey, a: int, b: int, checkIn: Date, points: int)
    requires p.lots == l + [Lot(k, a + b)] + r
    ensures Allocate(p.(lots := l + [Lot(k, a), Lot(k, b)] + r), checkIn, points) == Allocate(p, checkIn, points)
  {
    var q := p.(lots := l + [Lot(k, a), Lot(k, b)] + r);
    forall x ensures HasKey(p.lots, x) == HasKey(q.lots, x) && Balance(p, x) == Balance(q, x) {
      GrantedSplit(l, r, k, a, b, x);
    }
    hide Allocate, MonthsOf, Granted, Drawn, HasKey;
    AllocateByBalances(p, q, checkIn, points);
  }

  /** Nor does splitting or merging rows of what was consumed, whatever dispositions they carry. */
  lemma AllocateSplitConsumed(p: Pool, l: seq<Draw>, r: seq<Draw>, whole: Draw, a: Draw, b: Draw,
                              checkIn: Date, points: int)
    requires p.consumed == l + [whole] + r
    requires whole.key == a.key == b.key && whole.points == a.points + b.points
    ensures Allocate(p.(consumed := l + [a, b] + r), checkIn, points) == Allocate(p, checkIn, points)
  {
    var q := p.(consumed := l + [a, b] + r);
    forall x ensures Balance(p, x) == Balance(q, x) {
      DrawnSplit(l, r, whole, a, b, x);
    }
    hide Allocate, MonthsOf, Granted, Drawn, HasKey;
    AllocateByBalances(p, q, checkIn, points);
  }

  // ----- AllocateStayPoints

  datatype Candidate = Candidate(key: LotKey, disposition: Disposition, rank: int)

  function CandidateOrder(c: Candidate): (int, int) {
    (c.rank, c.key.contract)
  }

  function PriceOf(p: Pool, c: Candidate): Offer {
    Offer(c.key, c.disposition, Balance(p, c.key))
  }

  ghost predicate Priced(p: Pool, cs: seq<Candidate>, os: seq<Offer>) {
    && |cs| == |os|
    && forall i :: 0 <= i < |cs| ==> cs[i].rank == RankOf(cs[i].disposition) && os[i] == PriceOf(p, cs[i])
  }

  lemma PricedPermutation(p: Pool, cs: seq<Candidate>, os: seq<Offer>, sorted: seq<Candidate>)
    returns (prices: seq<Offer>)
    requires Priced(p, cs, os) && multiset(sorted) == multiset(cs)
    ensures Priced(p, sorted, prices)
    ensures forall o :: o in os <==> o in prices
  {
    prices := seq(|sorted|, i requires 0 <= i < |sorted| => PriceOf(p, sorted[i]));
    forall i | 0 <= i < |sorted| ensures sorted[i].rank == RankOf(sorted[i].disposition) && prices[i] in os {
      assert sorted[i] in multiset(cs);
      var j :| 0 <= j < |cs| && cs[j] == sorted[i];
      assert os[j] == prices[i];
    }
    forall o | o in os ensures o in prices {
      var j :| 0 <= j < |os| && os[j] == o;
      assert cs[j] in multiset(sorted);
      var i :| 0 <= i < |sorted| && sorted[i] == cs[j];
      assert prices[i] == o;
    }
  }

  /** However an unstable sort leaves the candidates, they are the offers in order. */
  lemma SortedCandidates(p: Pool, checkIn: Date, cs: seq<Candidate>, collected: seq<Offer>, sorted: seq<Candidate>)
    returns (os: seq<Offer>)
    requires collected == Collect(p, checkIn, p.lots) && Priced(p, cs, collected)
    requires multiset(sorted) == multiset(cs) && Sorting.Sorted(CandidateOrder, sorted)
    ensures os == Offers(p, checkIn) && Priced(p, sorted, os)
  {
    CollectExact(p, checkIn, p.lots);
    forall i, j | 0 <= i < j < |cs| ensures CandidateOrder(cs[i]) != CandidateOrder(cs[j]) {
      assert OfferOrder(collected[i]) != OfferOrder(collected[j]);
    }
    Sorting.PermutationIsStrict(CandidateOrder, cs, sorted);
    os := PricedPermutation(p, cs, collected, sorted);
    forall i, j | 0 <= i < j < |os| ensures Sorting.Less(OfferOrder(os[i]), OfferOrder(os[j])) {
      assert Sorting.Less(CandidateOrder(sorted[i]), CandidateOrder(sorted[j]));
    }
    OffersClassified(p, checkIn);
    Sorting.StrictUnique(OfferOrder, os, Offers(p, checkIn));
  }

  function At(m: map<LotKey, int>, k: LotKey): int {
    if k in m then m[k] else 0
  }

  method RemainingBalances(lots: seq<Lot>, consumed: seq<Draw>) returns (remaining: map<LotKey, int>)
    ensures forall k :: At(remaining, k) == Granted(lots, k) - Drawn(consumed, k)
  {
    remaining := map[];
    for i := 0 to |lots|
      invariant forall k :: At(remaining, k) == Granted(lots[..i], k)
    {
      var lot := lots[i];
      assert lots[..i + 1][..i] == lots[..i];
      remaining := remaining[lot.key := At(remaining, lot.key) + lot.points];
    }
    assert lots[..|lots|] == lots;
    for i := 0 to |consumed|
      invariant forall k :: At(remaining, k) == Granted(lots, k) - Drawn(consumed[..i], k)
    {
      var draw := consumed[i];
      assert consumed[..i + 1][..i] == consumed[..i];
      remaining := remaining[draw.key := At(remaining, draw.key) - draw.points];
    }
    assert consumed[..|consumed|] == consumed;
  }

  method MonthIndex(contracts: seq<Contract>) returns (months: map<int, int>)
    ensures months == MonthsOf(contracts)
  {
    months := map[];
    for i := 0 to |contracts|
      invariant months == MonthsOf(contracts[..i])
    {
      assert contracts[..i + 1][..i] == contracts[..i];
      months := months[contracts[i].id := contracts[i].useYearMonth];
    }
    assert contracts[..|contracts|] == contracts;
  }

  method CollectCandidates(contracts: seq<Contract>, lots: seq<Lot>, ghost consumed: seq<Draw>,
                           remaining: map<LotKey, int>, checkIn: Date) returns (candidates: seq<Candidate>)
    requires forall k :: At(remaining, k) == Granted(lots, k) - Drawn(consumed, k)
    ensures Priced(Pool(contracts, lots, consumed), candidates, Collect(Pool(contracts, lots, consumed), checkIn, lots))
  {
    hide MonthsOf, Granted, Drawn, HasKey, CandidateOrder, OfferOrder;
    ghost var p := Pool(contracts, lots, consumed);
    var months := MonthIndex(contracts);
    candidates := [];
    var seenKeys: set<LotKey> := {};
    for i := 0 to |lots|
      invariant Priced(p, candidates, Collect(p, checkIn, lots[..i]))
      invariant forall k :: k in seenKeys <==> exists j :: 0 <= j < |candidates| && candidates[j].key == k
    {
      assert lots[..i + 1][..i] == lots[..i];
      var key := lots[i].key;
      ghost var sofar := Collect(p, checkIn, lots[..i]);
      CollectExact(p, checkIn, lots[..i]);
      if At(remaining, key) <= 0 { continue; }
      if key in seenKeys {
        ghost var j :| 0 <= j < |candidates| && candidates[j].key == key;
        assert sofar[j] in sofar;
        continue;
      }
      if key.contract !in months { continue; }
      var uy := UseYearForDate(checkIn, months[key.contract]);
      var disposition, rank;
      if key.year == uy - 1 {
        disposition, rank := Banked, 0;
      } else if key.year == uy {
        disposition, rank := Current, 1;
      } else if key.year == uy + 1 {
        disposition, rank := Borrowed, 2;
      } else {
        continue;
      }
      ghost var o := Offer(key, disposition, Balance(p, key));
      assert OfferAt(p, checkIn, key) == Some(o);
      forall j | 0 <= j < |sofar| ensures sofar[j] != o {
        assert candidates[j].key in seenKeys;
      }
      ghost var before := candidates;
      seenKeys := seenKeys + {key};
      candidates := candidates + [Candidate(key, disposition, rank)];
      assert forall j :: 0 <= j < |before| ==> candidates[j] == before[j];
      assert candidates[|before|].key == key;
    }
    assert lots[..|lots|] == lots;
  }

  function Onto(done: seq<Draw>, rest: Option<seq<Draw>>): Option<seq<Draw>> {
    match rest
    case None => None
    case Some(ds) => Some(done + ds)
  }

  lemma WalkStep(os: seq<Offer>, i: nat, need: int, done: seq<Draw>)
    requires i < |os| && need != 0
    ensures var n := Min(need, os[i].balance);
            Onto(done, Walk(os[i..], need)) ==
            Onto(done + [Draw(os[i].key, os[i].disposition, n)], Walk(os[i + 1..], need - n))
  {
    var n := Min(need, os[i].balance);
    var d := Draw(os[i].key, os[i].disposition, n);
    assert os[i..][0] == os[i] && os[i..][1..] == os[i + 1..];
    match Walk(os[i + 1..], need - n) {
      case None =>
      case Some(rest) => assert done + ([d] + rest) == (done + [d]) + rest;
    }
  }

  /** Draws from the sorted candidates in turn, each contributing what is still needed of it. */
  method DrawInOrder(candidates: seq<Candidate>, balances: map<LotKey, int>, ghost os: seq<Offer>, points: int)
    returns (r: Option<seq<Draw>>)
    requires points >= 0 && |candidates| == |os| && DistinctOffers(os)
    requires forall j :: 0 <= j < |os| ==>
               os[j] == Offer(candidates[j].key, candidates[j].disposition, At(balances, candidates[j].key))
    requires forall j :: 0 <= j < |os| ==> os[j].balance > 0
    ensures r == Walk(os, points)
  {
    var remaining := balances;
    var need := points;
    var result: seq<Draw> := [];
    var i := 0;
    assert os[0..] == os;
    assert Walk(os, points).Some? ==> [] + Walk(os, points).value == Walk(os, points).value;
    while i < |candidates| && need != 0
      invariant 0 <= i <= |candidates| && need >= 0
      invariant forall j :: i <= j < |candidates| ==> At(remaining, candidates[j].key) == os[j].balance
      invariant Walk(os, points) == Onto(result, Walk(os[i..], need))
    {
      var c := candidates[i];
      var available := At(remaining, c.key);
      var draw := Min(need, available);
      WalkStep(os, i, need, result);
      forall j | i < j < |candidates| ensures candidates[j].key != c.key {
        assert os[i].key != os[j].key;
      }
      result := result + [Draw(c.key, c.disposition, draw)];
      remaining := remaining[c.key := available - draw];
      need := need - draw;
      i := i + 1;
    }
    if need != 0 { return None; }
    assert result + [] == result;
    return Some(result);
  }

  /** None is ErrInsufficientPoints. */
  method AllocateStayPoints(contracts: seq<Contract>, lots: seq<Lot>, consumed: seq<Draw>, checkIn: Date, points: int)
    returns (r: Option<seq<Draw>>)
    ensures r == Allocate(Pool(contracts, lots, consumed), checkIn, points)
  {
    if points <= 0 { return Some([]); }
    ghost var p := Pool(contracts, lots, consumed);
    var remaining := RemainingBalances(lots, consumed);
    var collected := CollectCandidates(contracts, lots, consumed, remaining, checkIn);
    var candidates := Sorting.SortSlice(CandidateOrder, collected);
    ghost var os := SortedCandidates(p, checkIn, collected, Collect(p, checkIn, lots), candidates);
    OffersCover(p, checkIn);
    r := DrawInOrder(candidates, remaining, os, points);
  }
}
