# Verified model of the points ledger

A ledger holds vacation points: lots of points that contracts were given for a use year, and usage entries
that spend them. Trips collect stays. Booking a trip decides, for every stay, which lots pay for it, posts one
usage entry per draw and links the entries to the stay. This project models that, the budget a trip is searched
with, the search itself, the arithmetic of money, and two smaller algorithms, in Dafny, and proves what the
code promises of them.

How it is laid out:

- `Types`, `Sorting`, `Rows`: the values and rows; ordering by pairs, with `sort.Slice` as a method that
  promises some sorted permutation and no more; tables as sequences of rows in id order.
- `Allocation`: the point allocator as a loop over maps and lists, its specification (the greedy walk over the
  eligible lots in order), and the proof that the greedy walk is complete and optimal.
- `Accounting`: the SQL snapshots as group-by folds, the aggregate check, the binary search for a shortfall,
  and the dry run.
- `Booking`, `Schema`, `Lifecycle`, `Import`, `Runs`: the database as a value, what each transaction does to
  it, and what every run of requests keeps.
- `Store`: the same operations as methods of a class that updates its tables in place. Each is proved equal to
  the function that specifies it, so the results about the functions are results about the methods.
- `Interleaving`: concurrent bookings, attempt by attempt, interleaved with requests that raise balances.
- `Budget`, `Search`, `Money`, `Cost`, `Columns`, `Distribute`: the parts around the core.

What the model assumes: contract ids are distinct; a date is a day number with the year and month it falls in,
and nothing relates the three (results about the calendar have months from 1 to 12); SERIALIZABLE isolation is
taken as written in `Interleaving` (an attempt that writes commits only if no other booking has written since
its snapshot, because every attempt reads the sums over all usage entries). A conflict is reported at the commit
of an attempt.

Where the code and its own comments part ways, the model follows the code:

- The comment on `searchBudgetFor` (internal/web/render.go:461-467) says that booking must not move the search
  budget. It can, upwards only, and `BookingMovesBudget` says by how much for every booking: with an override,
  by all the points it books; without one, by the points drawn from use years the budget does not read, and by
  those drawn from the next year that the clamp on the borrowable part hides. `BookingKeepsBudgetExactly` says,
  from the dry run's draws, exactly when it does not move; `BookingCanMoveBudget` is an example (bonus points
  posted to the next use year, with no annual points left to borrow).
- A refused stay's `ShortBy` is the least top-up only in one branch. The aggregate branch compares with the
  points on the books, not with those this stay may draw on: `ShortByBound` says exactly when it is right, and
  `ShortByUnderstates` gives an example.
- The comment on `compoundDues` (internal/ledger/cost.go:170-178) takes the derived growth to be positive for
  positive rates. It can round to zero: `GrowthPositive` says exactly when, `GrowthCanVanish` gives an example.
- `Search` stops extending a stay once it is over budget, on the ground that longer stays cost more
  (internal/dvc/search.go:91-94). `TotalDecidesExactly` says exactly for which charts no affordable stay is lost
  by that: those in which no night with a negative rate follows a night with a rate, in any column.
  `NonNegativeNeverDrops` covers charts without negative rates, `NegativeRateIsMissed` is an example of a loss.
- The comments on the `String` methods (internal/ledger/money.go:139-151) say that they always read back. Every
  64-bit amount does but the least one, which has no negation: `MicrosRoundTrip`, `CentsRoundTrip` and
  `USDRoundTrip` say so of both.
- The comment on `parseDecimal` (internal/ledger/money.go:46-51) allows one leading "-". A second sign is read by
  the integer parser: "--5" is 5 and "$-5" is -5, as `SecondSign` says in general.
- An import with equal start and end dates passes the code's own check and is refused by the table's CHECK;
  `ImportAccepts` says exactly what is accepted, and `ImportRefuses` which of the two refuses.

## Model

| member | source | states |
|---|---|---|
| `Types.UseYearHoldsDate` | internal/ledger/types.go:76-81 | a date's use year is the one whose twelve months, from the contract's start month on, hold the date's month |
| `Allocation.AllocateStayPoints` | internal/ledger/allocation.go:91-179 | the loop over maps, candidates and draws computes the specified allocation, whatever order the unstable sort leaves equal elements in |
| `Allocation.RemainingBalances` | internal/ledger/allocation.go:106-112 | the map of remaining balances is grants less draws for every key, with lots or without |
| `Allocation.CollectCandidates` | internal/ledger/allocation.go:120-148 | the candidates are the eligible lots, once each, ranked by disposition |
| `Allocation.DrawInOrder` | internal/ledger/allocation.go:157-178 | the draw loop takes from the ordered candidates what the greedy walk takes |
| `Allocation.OffersExact` | internal/ledger/allocation.go:114-155 | by the calendar: candidates are exactly the lots of known contracts with a positive balance whose use year began less than 24 months before the check-in's month and at most 12 after it, banked from 12 months on, current from 0, borrowed before; older use years come first, and lower contract ids among lots of one disposition |
| `Allocation.ClassifiedByAge` | internal/ledger/allocation.go:128-141 | a lot is banked, current, borrowed or no candidate exactly by the months since its use year began |
| `Allocation.AllocateFunds` | internal/ledger/allocation.go:77-90 | an allocation's draws are positive, stay within eligible balances and sum to the points |
| `Allocation.AllocateComplete` | internal/ledger/allocation.go:83-90 | it refuses exactly when no assignment of draws within eligible balances sums to the points |
| `Allocation.AllocateSucceeds` | internal/ledger/allocation.go:157-178 | it succeeds exactly up to the summed balances of the eligible lots |
| `Allocation.AllocateDominates` | internal/ledger/allocation.go:76-82 | against every funding of the same stay it draws at least as much from the lots before any cut-off in the order |
| `Allocation.AllocateSpendsBankedFirst` | internal/ledger/allocation.go:60-82 | against every funding it uses at least as many banked and at most as many borrowed points |
| `Allocation.AllocateByBalances` | internal/ledger/allocation.go:73-82 | the draws depend only on the contract months, which lots exist and their net balances |
| `Allocation.AllocatePermuted` | internal/ledger/allocation.go:78-82 | permuting contracts, lots or consumed draws changes nothing |
| `Allocation.AllocateSplitLot` | internal/ledger/allocation.go:73-76 | splitting or merging rows of a lot changes nothing |
| `Allocation.AllocateSplitConsumed` | internal/ledger/allocation.go:110-112 | nor does splitting or merging rows of what was consumed, whatever dispositions they carry |
| `Accounting.AvailablePoints` | internal/ledger/trip_accounting.go:194-203 | the loop computes lots less draws less unattributed usage |
| `Accounting.LotsExact` | internal/ledger/trip_accounting.go:100-142 | the grouped lots give every key what the entries allotted to it |
| `Accounting.LotsOrdered` | internal/ledger/trip_accounting.go:113-114 | the groups come once each, in (contract, use year) order |
| `Accounting.SnapshotExact` | internal/ledger/trip_accounting.go:34-168 | the three SQL snapshots give every key its ledger balance, and the aggregate is the ledger's |
| `Accounting.Shortfall` | internal/ledger/trip_accounting.go:279-290 | the binary search over the allocator returns points less capacity, for a refused amount |
| `Accounting.ShortfallExact` | internal/ledger/trip_accounting.go:262-278 | adding at least that many points to a drawable lot makes the allocation succeed, and adding fewer does not |
| `Accounting.MinimumTopUpExact` | internal/ledger/trip_accounting.go:327-346 | the least top-up that makes a refused stay fundable, past both checks |
| `Accounting.ShortByBound` | internal/ledger/trip_accounting.go:327-346 | what a refusal reports is positive, never more than the least top-up, and equal to it exactly under a stated condition |
| `Accounting.ShortByUnderstates` | internal/ledger/trip_accounting.go:327-334 | a stay reported 20 points short that needs 80 |
| `Booking.TrackingFundsAlike` | internal/ledger/trip_book.go:97-138 | a pool that tracks the tables funds any stay as a fresh snapshot of them would |
| `Booking.PostKeepsTracking` | internal/ledger/trip_book.go:132-138 | after a stay is posted, appending its draws to the consumed list keeps the in-memory balances equal to the SQL sums |
| `Booking.PlanIsSerial` | internal/ledger/trip_book.go:97-138 | the loop with its in-memory list posts what booking stay by stay against fresh snapshots posts, or refuses when that refuses |
| `Booking.PlanCovers` | internal/ledger/trip_book.go:42-58 | a booking funds every unbooked stay, in order, in full, or none |
| `Booking.PlanBooks` | internal/ledger/trip_book.go:111-132 | each funded stay is linked to entries that record its draws in order: the check-in date, the trip and room as text, contract, use year, points, nothing allotted, and "Bank", "Borrow" or no tag for banked, borrowed or current draws |
| `Booking.PlanKeeps` | internal/ledger/trip_book.go:97-100 | stays that are not funded keep their entries |
| `Booking.PlanCharges` | internal/ledger/trip_book.go:111-125 | posting adds points to no lot and charges exactly the draws |
| `Booking.PreviewIsPlan` | internal/ledger/trip_accounting.go:311-358 | the dry run is fundable exactly when booking succeeds, with the same draws for each stay |
| `Booking.PreviewStopsWhereBookingFails` | internal/ledger/trip_accounting.go:249-262 | a dry run that is not fundable ends at the very stay that booking refuses |
| `Schema.TripRowsExact` | internal/ledger/trip.go:278-285 | a trip's stays are listed once each, in strict (check-in, id) order |
| `Schema.BookTripIsSerial` | internal/ledger/trip_book.go:69-141 | booking a trip in one transaction equals booking its stays one after another |
| `Schema.TripPlanExact` | internal/ledger/trip_book.go:97-138 | a successful booking funds exactly the trip's unbooked stays |
| `Schema.PostedStay` | internal/ledger/trip_book.go:97-132 | booking leaves an unbooked stay of the trip booked for its points, not partially, and every other stay as it was |
| `Schema.PreviewRefinesBooking` | internal/ledger/trip_accounting.go:292-321 | what the preview shows for each stay is what booking then links to it |
| `Schema.BookedEntriesTell` | internal/ledger/trip_book.go:21-31 | after a booking, an entry linked to a newly booked stay is tagged "Bank" exactly when its use year is the one before the check-in's for its contract, "Borrow" exactly when it is the one after, and not at all exactly when it is the same |
| `Schema.BookingConserves` | internal/ledger/trip_book.go:42-68 | the available points fall by exactly the booked stays' points; booking again changes nothing |
| `Lifecycle.PostingMoves` | internal/ledger/trip_accounting.go:34-203 | what posting one entry does to a lot's granted and used points and to the points available, with or without a contract |
| `Lifecycle.DeleteEntriesKeeps` | internal/ledger/dbgen/entries.sql.go:13-35 | deleting any entries, with the cascade, keeps links on live rows and stays within their points |
| `Lifecycle.DeleteTripRowKeeps` | internal/ledger/migrations/00004_trip.sql:33-48 | deleting a trip with the cascade to its stays keeps the schema's invariants |
| `Lifecycle.BookOnceKeeps` | internal/ledger/trip_book.go:69-141 | booking keeps them too |
| `Lifecycle.UnbookUndoesBooking` | internal/ledger/trip_book.go:160-177 | unbooking takes a booking back; a trip without links before is restored exactly, but for the identity counter |
| `Lifecycle.DeleteTripExact` | internal/ledger/trip_book.go:179-206 | deleting a trip removes it, its stays, their links and exactly the entries linked to them; unbooking removes the links and entries only |
| `Lifecycle.DeleteStayExact` | internal/ledger/trip_book.go:208-225 | deleting a stay removes exactly it and the entries linked to it |
| `Lifecycle.CascadeFirstStrandsEntries` | internal/ledger/trip_book.go:182-185 | why entries go first: after the cascade, deleting the trip's entries deletes none |
| `Lifecycle.DeletingEntryPartlyUnbooks` | internal/ledger/trip.go:85-93 | deleting one of several entries of a funded stay leaves it partially booked; deleting the only one leaves it unbooked |
| `Lifecycle.RebookingLeavesPartial` | internal/ledger/trip_book.go:98-100 | booking again does not top up a partially booked stay |
| `Import.ScanStaysExact` | internal/ledger/trip_import.go:65-102 | validation passes exactly when every stay is paid for to the point by distinct, existing, unlinked usage entries |
| `Import.EntryFaultExact` | internal/ledger/trip_import.go:71-95 | which fault a listed entry id has: listed before, no entry, no usage, or linked, in that order |
| `Import.StayFaultExact` | internal/ledger/trip_import.go:66-101 | a stay is refused for having no entries, or for a sum other than its points, exactly then |
| `Import.ImportAccepts` | internal/ledger/trip_import.go:37-124 | exactly which imports are accepted, in terms of dates, nights, points and entries; after validation the writes cannot fail |
| `Import.ImportRefuses` | internal/ledger/trip_import.go:38-55 | which imports are refused as invalid before an entry is read, and which only by the table's checks |
| `Import.ImportBooks` | internal/ledger/trip_import.go:30-36 | an accepted import changes no entry, adds the trip with at least one night and the stays as given, links each to the entries listed for it and no others; its stays read as booked in full, the older ones as before |
| `Runs.ApplyKeeps` | internal/ledger/trip_book.go:69-225 | every request keeps the schema's invariants |
| `Runs.RunKeeps` | internal/ledger/trip_book.go:69-225 | so does every run of requests: links name live stays and live usage entries, no entry is linked twice, no stay is funded beyond its points |
| `Runs.RunFromEmpty` | internal/ledger/migrations/00005_trip_stay_entry.sql:12-30 | and every run from an empty ledger |
| `Interleaving.CommitIsPostable` | internal/ledger/trip_book.go:60-68 | at a commit the stays of the attempt's plan are live and unbooked, though the snapshot is old |
| `Interleaving.CommitWithinBalance` | internal/ledger/trip_book.go:60-68 | a commit draws no more from a lot than it holds at that moment |
| `Interleaving.CommitFundsOnce` | internal/ledger/trip_book.go:97-132 | a commit funds each of its stays, unbooked until then, exactly in full |
| `Interleaving.OtherRises` | internal/ledger/trip_book.go:160-225 | unbooking, deleting, importing and posting points only raise balances, and never give a stay entries it had not |
| `Interleaving.StepKeepsInv` | internal/ledger/trip_book.go:69-158 | every step of every session keeps the invariant that ties open attempts to the tables |
| `Interleaving.StepKeepsSolvent` | internal/ledger/trip_book.go:60-68 | no step takes a lot or the aggregate from zero or more to below zero |
| `Interleaving.InterleavingKeepsInv` | internal/ledger/trip_book.go:147-158 | nor does any interleaving break the invariant: each call commits at most one attempt of at most three |
| `Interleaving.InterleavingKeepsSolvent` | internal/ledger/trip_book.go:60-68 | in any interleaving no solvent lot becomes overdrawn |
| `Interleaving.BookingsAreSafe` | internal/ledger/trip_book.go:42-158 | the whole claim over runs from an initial state |
| `Store.Store.ListStays` | internal/ledger/trip.go:285-320 | the two maps, of entry ids and of summed points by stay, give each stay its linked entries' ids and points |
| `Store.GroupedUsedIsView` | internal/ledger/dbgen/trips.sql.go:177-185 | the grouped query's sum for a stay is the sum over its linked entries |
| `Store.GroupIsView` | internal/ledger/trip.go:294-297 | a stay's group of ordered link rows is its linked entries' ids, in order |
| `Store.Store.PreviewStayFunding` | internal/ledger/trip_accounting.go:221-236 | the single-stay dry run decides as booking would |
| `Store.Store.PreviewTripFunding` | internal/ledger/trip_accounting.go:311-358 | the loop that threads draws through the consumed list computes the specified preview |
| `Store.Store.BookStays` | internal/ledger/trip_book.go:97-138 | the booking loop posts the specified plan, or refuses |
| `Store.Store.BookTripOnce` | internal/ledger/trip_book.go:69-141 | one attempt commits the specified booking or leaves every table as it was; a trip that is not there is reported as such, and a conflict never commits |
| `Store.Store.BookTrip` | internal/ledger/trip_book.go:147-158 | retries only a lost serialization, at most three attempts; each retry meets what the winner wrote, the last attempt's answer is the call's, and only that attempt can take effect |
| `Store.CounterDoesNotDecide` | internal/ledger/trip_book.go:147-158 | identity values that lost attempts used up do not change whether a retry succeeds |
| `Store.Store.UnbookTrip` | internal/ledger/trip_book.go:163-177 | removes the links of the trip's stays and exactly the entries they named, nothing else, and keeps the schema's invariants |
| `Store.Store.DeleteTrip` | internal/ledger/trip_book.go:186-206 | removes exactly the trip, its stays, their links and the entries linked to them, and keeps the schema's invariants |
| `Store.Store.DeleteStay` | internal/ledger/trip_book.go:208-225 | removes exactly the stay, its links and the entries linked to it, and keeps the schema's invariants |
| `Store.Store.ScanEntries` | internal/ledger/trip_import.go:66-102 | the validation loop finds the first fault of a stay's entries, or none |
| `Store.Store.ImportBookedTrip` | internal/ledger/trip_import.go:37-124 | the import's outcome is the specified one; a refusal leaves every table as it was |
| `Store.Store.DistributeUpTo` | internal/ledger/distribute.go:49-88 | the loop leaves the specified ledger and returns exactly the rows it added, each of which grants a contract that was behind its annual points for the year after its latest, on the first day of that use year |
| `Budget.SummariesExact` | internal/ledger/dbgen/distribute.sql.go:49-54 | the grouped summaries give each use year its allotted and used sums, and zero when it has no row |
| `Budget.BudgetForUseYear` | internal/ledger/budget.go:55-75 | the budget read from the lookup map |
| `Budget.TripBudgetFor` | internal/ledger/budget.go:82-101 | the budget of a trip as sums over the ledger's entries, for the use year that holds the start date's month counted from the first contract's month |
| `Budget.SearchBudgetFor` | internal/web/render.go:454-476 | the override if there is one and the budget's total otherwise, less exactly the unbooked stays' points |
| `Budget.BookingMovesBudget` | internal/web/render.go:454-476 | for every booking, how far it moves the search budget, from what is known before; never down |
| `Budget.BookingKeepsBudgetExactly` | internal/web/render.go:461-467 | it is unchanged exactly when, with an override, nothing was left to book, and without one, the dry run draws only from the three use years the budget reads and from the last of them no more than is left to borrow |
| `Budget.ShownAreBooked` | internal/ledger/trip_accounting.go:292-321 | the dry run's draws are those that booking posts |
| `Budget.BookingMovesBudgetBy` | internal/web/render.go:454-476 | in particular, with no override, one use-year month and all stays in the displayed use year: by max(0, borrowed - borrowable) |
| `Budget.BookingKeepsBudget` | internal/web/render.go:461-467 | and then it is unchanged exactly when what is borrowed is still borrowable |
| `Budget.BookingCanMoveBudget` | internal/web/render.go:461-467 | a booking that raises the search budget by 50 |
| `Search.PointsForNight` | internal/dvc/search.go:34-51 | the first period that holds the night decides: its season's Fri-Sat rate on a Friday or Saturday, counted from 1 January 1970, a Thursday, and its Sun-Thu rate on any other night |
| `Search.NightCharged` | internal/dvc/search.go:27-46 | the same for the rate the search charges: every earlier period is well-formed and misses the night |
| `Search.NightUnparsed` | internal/dvc/search.go:38-41 | a period that does not parse ends the lookup unless an earlier one holds the night |
| `Search.WeekCharged` | internal/dvc/search.go:26-30 | any seven consecutive nights of one season cost five Sun-Thu and two Fri-Sat rates |
| `Search.NightRateCovered` | internal/dvc/search.go:34-51 | when all periods parse, a night has a rate exactly when some season's period holds it |
| `Search.TotalDecidesExactly` | internal/dvc/search.go:80-107 | every search of the charts finds every stay that its total puts within budget exactly when no night with a negative rate follows a night with a rate |
| `Search.OfferedByTotal` | internal/dvc/search.go:56-119 | for such charts a stay is found exactly when it lies in the window, has an allowed length, has every night covered and a total within the budget |
| `Search.NonNegativeNeverDrops` | internal/dvc/search.go:91-94 | charts without negative rates are such charts |
| `Search.BreakLosesNothing` | internal/dvc/search.go:86-107 | in a column of such a chart, where the inner loop breaks no longer stay from that check-in has a total within the budget |
| `Search.HitsExact` | internal/dvc/search.go:64-112 | the enumeration holds every offered stay of every chart and column not excluded, once, and no other |
| `Search.Search` | internal/dvc/search.go:56-119 | the results are the enumeration's, each with its place, dates, nights and total, ordered by points and then by check-in |
| `Search.NegativeRateIsMissed` | internal/dvc/search.go:91-94 | a chart with a negative rate, and a stay within the budget that is not found |
| `Money.DivRound` | internal/ledger/money.go:28-44 | the sign-splitting division computes the rounded quotient |
| `Money.RoundedIsRounding` | internal/ledger/money.go:26-44 | the result is a nearest integer, and the one away from zero on a tie |
| `Money.RoundingIsUnique` | internal/ledger/money.go:26-44 | there is only one such integer |
| `Money.RoundedBetween` | internal/ledger/money.go:28-44 | rounding keeps a quotient between any integers it lies between |
| `Money.FormatFixed` | internal/ledger/money.go:112-127 | prints sign, truncated quotient and zero-padded remainder by the scale's power of ten, with 64-bit negation |
| `Money.FixedParts` | internal/ledger/money.go:109-127 | which for every amount but the least are the digits of the amount's size, the fraction to exactly the scale |
| `Money.GroupThousands` | internal/ledger/money.go:155-170 | the loop from the left places commas every three digits from the right |
| `Money.GroupedForm` | internal/ledger/money.go:153-171 | commas stand before every third digit from the right and nowhere else, and the digits are as they were |
| `Money.FormatUSD` | internal/ledger/money.go:175-186 | sign, then dollar mark, then the whole part in groups of three and the cents |
| `Money.CentsForm` | internal/ledger/money.go:147-186 | cents print as the sign, the dollars and two digits, and as currency with the mark and the dollars grouped |
| `Money.MicrosForm` | internal/ledger/money.go:139-145 | millionths print as the sign, the dollars and the shortest exact fraction of at most six digits |
| `Money.ParseDecimal` | internal/ledger/money.go:52-88 | trims, takes off sign, mark and commas, pads the fraction to the scale or refuses it, and reads 64 bits; empty is zero |
| `Money.MagnitudeExact` | internal/ledger/money.go:70-83 | digits with a point parse to exactly their value at the scale, or to an error when 64 bits or the scale cannot hold them; nothing is rounded |
| `Money.ParsedPrinted` | internal/ledger/money.go:52-69 | white space around, sign, dollar mark and separators are dropped, and only the sign counts |
| `Money.ParsedWithoutDigits` | internal/ledger/money.go:54-68 | blank text is zero; a sign, a mark or separators alone are an error |
| `Money.SecondSign` | internal/ledger/money.go:58-83 | a second sign is read by the integer parser, so that two minus signs cancel |
| `Money.MicrosRoundTrip` | internal/ledger/money.go:139-145 | parsing a printed rate gives the rate back, for every 64-bit rate but the least, which gives an error |
| `Money.CentsRoundTrip` | internal/ledger/money.go:147-151 | parsing a printed amount gives the amount back, likewise |
| `Money.USDRoundTrip` | internal/ledger/money.go:172-186 | so does parsing its currency form, likewise |
| `Money.CostIsNearest` | internal/ledger/money.go:196-202 | a cost is the whole number of cents nearest to points times rate and dues, half a cent away from zero |
| `Money.SplittingChangesLittle` | internal/ledger/money.go:196-202 | pricing points draw by draw moves the total by at most half a cent a draw and half a cent |
| `Cost.NewCostBasis` | internal/ledger/cost.go:35-76 | the snapshot's rates, blend, stored dues, span and growth, each as specified |
| `Cost.DuesGrowth` | internal/ledger/cost.go:83-106 | over map keys in any order: the first and last year, and a growth between any bounds on the rise from a stored year to the next |
| `Cost.PriceSpreadsCost` | internal/ledger/cost.go:275-292 | a contract is priced exactly when price, points and term are positive and closing costs are not negative; the rate times all the points of the term is then its cost, up to rounding |
| `Cost.RatesExact` | internal/ledger/cost.go:43-48 | the snapshot holds the rate of each priced contract and of no other |
| `Cost.BlendIsMean` | internal/ledger/cost.go:49-55 | the blend times all priced points is what they cost in a year at each contract's own rate, up to rounding |
| `Cost.BlendedWithinRates` | internal/ledger/cost.go:42-55 | the blend lies between the least and greatest priced rate, and exists exactly when a contract is priced |
| `Cost.StoredDuesExact` | internal/ledger/cost.go:57-68 | a year is stored exactly when it has a positive rate, with the last of them |
| `Cost.GrowthWithinRises` | internal/ledger/cost.go:91-105 | growth lies between any bounds on the rise, in millionths, from each stored year to a stored next one, and is flat when there is no such pair |
| `Cost.GrowthNearMean` | internal/ledger/cost.go:78-105 | it is within a millionth of the exact mean of those rises |
| `Cost.ProjectionFollowsDues` | internal/ledger/cost.go:136-191 | dues that never fall from a stored year to the next are never projected to fall, forward or backward; likewise for rising |
| `Cost.GrowthPositive` | internal/ledger/cost.go:170-178 | growth is positive exactly unless the ratios average less than half a millionth |
| `Cost.GrowthCanVanish` | internal/ledger/cost.go:170-178 | two stored positive rates from which the snapshot derives no growth |
| `Cost.CompoundDues` | internal/ledger/cost.go:179-191 | the two loops compound forward or backward, or do nothing when there is no growth |
| `Cost.NearestDuesYearBelow` | internal/ledger/cost.go:197-204 | the greatest stored year below |
| `Cost.DuesFor` | internal/ledger/cost.go:149-168 | total on every snapshot; exact on stored years, and otherwise projected from the nearest stored year on the right side |
| `Cost.ProjectionError` | internal/ledger/cost.go:179-191 | k rounded steps stray from exact compounding by at most half of 1 + x + ... to k terms, for x the growth in millionths or its inverse |
| `Cost.StepsFollowGrowth` | internal/ledger/cost.go:179-191 | projected rates stay non-negative and move the way the growth points |
| `Cost.FlatWithoutPairs` | internal/ledger/cost.go:77-82 | with no two stored years one apart, every projection is the base rate |
| `Columns.IntegersExact` | internal/dvc/parser.go:77-89 | the integers of a line are its maximal runs of digits, and every digit is in one |
| `Columns.IntegersAscend` | internal/dvc/parser.go:77-89 | integers are found left to right |
| `Columns.IntegersAfter` | internal/dvc/parser.go:60-66 | the rates read from a row are the integers that anchor its columns, in the same order |
| `Columns.StartsAscend` | internal/dvc/parser.go:279-294 | group starts strictly increase: at the label of a known room type, and otherwise at the middle of the gap before it, rounded up |
| `Columns.MiddleFallsLeft` | internal/dvc/parser.go:265-283 | the middle character of such a gap belongs to the group on its left, and the one after it to the group on its right |
| `Columns.GroupCellsExact` | internal/dvc/parser.go:250-260 | the labels are the cells that reach to within five characters of the first integer, but for NIGHTS itself |
| `Columns.CodesInExact` | internal/dvc/parser.go:359-364 | a group's view codes are those that start in its range, in order |
| `Columns.ColumnForExact` | internal/dvc/parser.go:388-473 | an integer's column has the view code at its own place in its group, when the label names a known room type and there are that many codes, and none otherwise |
| `Columns.NextGroup` | internal/dvc/parser.go:346-358 | group by group the ranges take in positions without gap or overlap |
| `Columns.EmitGroup` | internal/dvc/parser.go:347-474 | a group emits one column for each integer in its range, with the view code at the same place among the group's codes |
| `Columns.ParseColumns` | internal/dvc/parser.go:226-476 | the columns are those that each integer calls for on its own, in the row's order; and exactly when there is which error instead |
| `Columns.OneColumnEach` | internal/dvc/parser.go:222-226 | exactly one column for each integer, column j for integer j, exactly as long as the row stays left of the last group's end |
| `Columns.ColumnsMatchValues` | internal/dvc/parser.go:60-89 | for the text of a row: one column for each value that the season rows' reader finds in it, column j for value j |
| `Distribute.LatestYearExact` | internal/ledger/dbgen/distribute.sql.go:31-35 | the latest year is the greatest use year of the contract's allocation rows, and there is one exactly when there is such a row |
| `Distribute.RunPostsDue` | internal/ledger/distribute.go:49-88 | advancing contracts one after another posts the rows that were due before the run, one for each contract behind the cap; the existence check never finds one |
| `Distribute.DistributedGrants` | internal/ledger/distribute.go:70-86 | a run raises what each contract that is behind was granted for its next year by its annual points, and nothing else; it takes from no lot, and what is available rises by the sum |
| `Distribute.DistributedRows` | internal/ledger/distribute.go:71-79 | every row it adds is an allocation of annual points, dated the first day of the use year it grants |
| `Distribute.PostedDue` | internal/ledger/distribute.go:56-86 | a contract gets at most the one row, for a year that had none |
| `Distribute.RunsReach` | internal/ledger/distribute.go:42-48 | after k runs a contract at L stands at max(L, min(M, L + k)) |
| `Distribute.RunsNeverRepeat` | internal/ledger/distribute.go:62-68 | no number of runs gives a contract a second row for a year |
| `Distribute.NoOpExactly` | internal/ledger/distribute.go:46-48 | a run changes nothing exactly when no contract with an allocation is below the cap |
| `Distribute.RunsSettle` | internal/ledger/distribute.go:35-48 | max(0, M - L) runs reach a fixed point; one is enough when no contract is more than a year behind |
| `Distribute.UsageIsIgnored` | internal/ledger/dbgen/distribute.sql.go:31-35 | only allocation rows decide what is posted |

## Left out

- PostgreSQL itself: SQL statements are folds and deletes over rows, locks are not modelled, and serializability
  is the assumption stated in `Interleaving`. Errors of the driver and the network are not modelled.
- Where in an attempt a conflict is noticed: the model reports it at the commit. Nothing is written either way.
- UpdateEntry, UpdateTrip, UpdateContract, DeleteContract, and usage posted by hand while a booking is open:
  they can break the invariants proved here, by design.
- `Interleaving.OtherRises`: covers requests that raise balances; posting usage and deleting rows that granted
  points are outside it, because they do lower balances.
- The calendar: days, years and months are given; only the order of days and the use-year rule are used. In
  `Search` a weekday is the day number modulo seven.
- 32-bit and 64-bit widths outside the money round trips: numbers are unbounded.
- `Money.ParseDecimal`: works on characters, not bytes; a text with other characters is an error in both.
- FormatRate, Cost, PriceEntries and PriceSummaries: calls and sums over what is proved here.
- Which room a label means (keyword matching, sleeps annotations, sub-headings, the alternate variant): a
  parameter of `Columns`; so are regular expressions, upper-casing, and finding the lines of a chart.
- Seasons and date ranges parsed from a chart, and pdftotext.
- `Columns.ParseColumns`: expects cells in order with a gap between them, as its cell pattern yields.
- A stay's view text and quote hash, a trip's filters, entry descriptions beyond what booking writes, running
  balances.
- HTTP handlers, templates, the command line, authentication, caching, configuration and migrations: wiring.
