# Allotments, quotes, fingerprints, grants, demo stock and migrations

A Dafny model of the parts of the travel platform that must not lose count, with proofs of what they
promise. `dafny verify dfyconfig.toml` checks everything.

## What is modelled

**Room-block allotments.** A block of rooms has a header, one row of counters per night and an
append-only ledger of pickups. `RoomBlocks` gives each operation as a function from the tables before
to the tables after, and the invariant `Valid`: on every night the picked-up counter is the sum of the
rooms of the active pickups covering it, the CHECK constraints hold, every night of an active pickup
has its row, and no stay item has two active pickups. `RoomBlockService` is the same as a class whose
methods update the tables in place, night by night, in the order the service makes its statements.
`RoomBlockSummaries` and `RoomBlockHistory` prove conservation, replay and undo properties of whole
runs; `RoomBlockWitnesses` has the runs that show where they end. `RoomBlockTransactions` is the
interleaved form: transactions advance one row at a time, take the row locks the statements take, keep
their writes to themselves until they commit, and may end without effect at any point. An upsert that
inserts a night also shares the block's header, as the foreign key makes it, so a cutoff, which holds
that header, never misses a night. The committed tables go through nothing but the sequential
operations (`CommitsAreSerial`). `RoomBlockSerialRuns` shows that the step system is not vacuous:
every run of writing operations is committed by the history that runs them one transaction at a time
(`EverySerialRunHappens`).

**Owned-stay quotes.** `OwnedStays` judges a request against the nights of a stay; `OwnedStayTables`
reads those nights from the tables and proves that the query filters lose nothing, that row order does
not matter, that a stay splits at any night and that reserving on quotes never overbooks.
`OwnedStayQuotes` has the loops: the lookup tables, the checks and sums, and the grouped batch form,
which answers exactly what the one-at-a-time form answers. `OwnedStaySearch` has the search loop, the
stable sort by price and the cursor paging.

**Fingerprints.** `JsonText` and `CanonicalJson` model canonical JSON down to UTF-16 code units, string
escapes (section 7 of RFC 8259, the way JSON.stringify applies them), and the property order of
objects, including index-like keys. `CanonicalMeaning` proves that the canonical text and the meaning
of a value decide each other, where the meaning forgets key order and takes `undefined` and numbers
that are not finite for null, and -0 for 0, as the printer does. `Fingerprints` adds the record, the
hexadecimal digest and both fingerprint builders; the hash is a parameter. Two commands share a
fingerprint exactly when they are the same once own properties named `__proto__` are taken out of
their inputs, or the hash collides.

**Capability grants.** `Capabilities` folds scopes into the permission table as the code does and
proves that the table grants what the scopes grant one by one, and what that means for access. The
table is an ordinary object, so a name that every object inherits, such as `constructor`, finds a
value that is no list: using it throws, and the outcome of every question says when.

**Demo supplier.** `DemoSupplier` and `DemoService` model reserving and cancelling, with the clamped
departure places and the guarded row counter.

**Migration runner.** `Migrations` models runs that can fail in any statement of any entry. The catalog
demo and the flights demo have the same script.

Where a promise turned out to hold only under a condition, the code is modelled as it is and the exact
condition is proved:

- canonical JSON loses own properties named `__proto__` (`CopyIsFaithful`, `ProtoIsPassedOver`), so
  different commands can share a fingerprint without a collision (`DifferentCommandsCanShare`,
  `DifferentApprovalsCanShare`);
- scopes and grants on inherited names throw (`ScopesGrantOneByOne`, `AccessMeans`), so adding a scope
  can take access away (`ScopeCanTakeAccessAway`), though never by a denial (`AccessIsMonotone`);
- a pickup is documented as idempotent per stay item, but the check comes after the one that the named
  block is open: a repeated request returns the pickup exactly when it is (`ResentPickupIsIdle`,
  `ResentPickupCanBeRefused`);
- the replay reader asked by stay item ignores the status (`ReplayByStayItemIsSure`,
  `ReplayByStayItemCanMiss`);
- cursors past the safe integer range do not come back (`CursorRoundTrip`);
- demo stock is conserved only from within the capacity (`ConservedExactlyWhen`), and a row's units only
  while some are available (`UnpinnedReserveConserves`, `UnpinnedReserveCanOvershoot`);
- registry keys of different capabilities can be equal (`KeysCanMeet`);
- failed migration runs recover only for rising journals (`SafeExactlyWhenRising`).

Ids that the database generates are parameters of the operations that insert rows. A date text is a
day number once parsed; `Calendar` parses it and proves that the numbers follow the calendar.

## Model

| member | source | states |
|---|---|---|
| Calendar.NextDateNextNumber | packages/allotments/src/index.ts:65-74 | The date after a date has the next day number, over months, years and leap days |
| Calendar.NumbersKeepOrder | packages/allotments/src/index.ts:65-74 | Dates are numbered in their order, and different dates never share a number |
| Calendar.EachDateInRange | packages/allotments/src/index.ts:65-74 | The cursor loop lists the days from start up to and not including end, and nothing for unparsable or reversed ranges |
| RoomBlocks.UpsertAccepted | packages/accommodations/src/service-room-blocks.ts:105-122 | Setting nights is accepted exactly when no date repeats and every held count is in range and covers what is picked up or released |
| RoomBlocks.UpsertEffect | packages/accommodations/src/service-room-blocks.ts:105-122 | An accepted upsert sets the held rooms of the listed nights, never their pickup or release counters, and nothing else |
| RoomBlocks.FirstUnavailable | packages/accommodations/src/service-room-blocks.ts:188-195 | The capacity check passes exactly when every night exists and has the rooms left |
| RoomBlocks.FirstUnavailableIs | packages/accommodations/src/service-room-blocks.ts:188-195 | The night reported as unavailable is the first that fails the check, with the rooms left there |
| RoomBlocks.RequestedRow | packages/accommodations/src/service-room-blocks.ts:149-151 | A request is an invalid range exactly when its room count is not positive or its date range is empty |
| RoomBlocks.ReversalTargetIs | packages/accommodations/src/service-room-blocks.ts:244-262 | A reversal finds a row exactly when an active one is asked for, in the requested block if one is named, and then that one |
| RoomBlocks.PickupRowAccepted | packages/accommodations/src/service-room-blocks.ts:153-219 | A pickup is recorded exactly when the block is open, the stay item is new and every night has room; otherwise nothing changes |
| RoomBlocks.ShareWithinPickedOn | packages/accommodations/src/service-room-blocks.ts:264-272 | A reversal cannot underflow: each active pickup's share is part of the counter's sum |
| RoomBlocks.SetNightsKeepsValid | packages/accommodations/src/service-room-blocks.ts:105-122 | Setting nights keeps counters equal to the ledger and within the CHECK constraints |
| RoomBlocks.PickupKeepsValid | packages/accommodations/src/service-room-blocks.ts:145-220 | A pickup keeps the invariant: one snapshot check before the increments is enough |
| RoomBlocks.ReverseKeepsValid | packages/accommodations/src/service-room-blocks.ts:238-282 | A reversal keeps the invariant |
| RoomBlocks.ReleaseKeepsValid | packages/accommodations/src/service-room-blocks.ts:312-350 | A cutoff keeps the invariant |
| RoomBlocks.ReachableIsValid | packages/accommodations/src/schema-room-blocks.ts:94-101 | In every reachable state counters match the ledger, nothing is oversold, and no stay item is active twice |
| RoomBlockSummaries.SumByNightIsSumByPickup | packages/accommodations/src/service-room-blocks.ts:366-403 | Summing the ledger night by night or row by row gives the same number |
| RoomBlockSummaries.SummaryConserves | packages/accommodations/src/service-room-blocks.ts:366-403 | Picked up is the room nights of the active ledger rows, remaining is the sum of what is left night by night, held is both and what is released, and no total is negative |
| RoomBlockSummaries.ProgressMeaning | packages/allotments/src/index.ts:54-57 | Progress is none exactly without an active row, and full exactly with one and no room left on any night |
| RoomBlockSummaries.ReleaseAccounting | packages/accommodations/src/service-room-blocks.ts:312-350 | The count returned is the rise of released and the drop of remaining; every night ends with none left; picked up and ledger stay |
| RoomBlockSummaries.SecondReleaseIsIdle | packages/accommodations/src/service-room-blocks.ts:312-350 | A second cutoff returns zero and changes nothing |
| RoomBlockHistory.SetNightsAccepted | packages/accommodations/src/schema-room-blocks.ts:94-101 | In valid tables, exactly when setting nights is refused by the CHECK constraints or the foreign key; a refusal changes nothing |
| RoomBlockHistory.LedgerHistory | packages/accommodations/src/service-room-blocks.ts:238-282 | Over any run ledger rows are never removed and change only from active to reversed |
| RoomBlockHistory.ResentPickupIsIdle | packages/accommodations/src/service-room-blocks.ts:160-178 | Re-sending a pickup still active, after any steps in between, changes nothing and returns it exactly when the named block is open; otherwise it is refused |
| RoomBlockWitnesses.ResentPickupCanBeRefused | packages/accommodations/src/service-room-blocks.ts:153-178 | A run from empty tables after which re-sending a pickup that is still active is refused |
| RoomBlockHistory.ReversalIsFinal | packages/accommodations/src/service-room-blocks.ts:284-297 | After a reversal by pickup id and block id, every later replay read gives that row and every later reversal is idle |
| RoomBlockHistory.ReplayByStayItemIsSure | packages/accommodations/src/service-room-blocks.ts:284-297 | Asked by stay item, the reader is sure to report a reversal exactly when all rows of the item are reversed pickups of the block |
| RoomBlockWitnesses.ReplayByStayItemCanMiss | packages/accommodations/src/service-room-blocks.ts:284-297 | A run from empty tables after which the reader by stay item may miss a reversal that happened |
| RoomBlockHistory.ApplySkips | packages/accommodations/src/service-room-blocks.ts:145-282 | A request that succeeds next to an unrelated ledger row also succeeds without it, and the tables keep differing by that row alone |
| RoomBlockHistory.ReversalUndoesPickup | packages/accommodations/src/service-room-blocks.ts:145-282 | Deleting a pickup and its later reversal from a run, with cutoffs of other blocks and any other requests in between, leaves every other step successful and all night counters the same |
| RoomBlockService.Service.constructor | packages/accommodations/src/service-room-blocks.ts:58-83 | Block headers without nights or pickups satisfy the invariant |
| RoomBlockService.Service.SetRoomBlockNights | packages/accommodations/src/service-room-blocks.ts:105-122 | The upsert loop, as one statement accepted or refused as a whole, gives the specified tables and keeps the invariant |
| RoomBlockService.Service.PickupRoomBlock | packages/accommodations/src/service-room-blocks.ts:145-220 | The whole pickup gives the specified tables and outcome, and keeps the invariant |
| RoomBlockService.Service.RecordPickup | packages/accommodations/src/service-room-blocks.ts:153-219 | The transaction's checks and loops give the specified tables and outcome, in the order of the code |
| RoomBlockService.Service.AddToNights | packages/accommodations/src/service-room-blocks.ts:197-205 | The increment loop adds the rooms to every night of the range and no other, and no update is refused |
| RoomBlockService.Service.ReverseRoomBlockPickup | packages/accommodations/src/service-room-blocks.ts:238-282 | The reversal gives the specified tables and outcome, with no update refused |
| RoomBlockService.Service.ReleaseNight | packages/accommodations/src/service-room-blocks.ts:332-340 | One night's release moves what is left to the released counter, without a refusal, and counts it |
| RoomBlockService.Service.ReleaseRoomBlockAtCutoff | packages/accommodations/src/service-room-blocks.ts:312-350 | The release loop, in whatever order it meets the nights, gives the specified tables and count |
| RoomBlockService.Service.SummarizeRoomBlock | packages/accommodations/src/service-room-blocks.ts:366-403 | The accumulating loop gives the declarative sums |
| RoomBlockService.ReversalPassesChecks | packages/accommodations/src/service-room-blocks.ts:264-272 | Giving back an active pickup's rooms passes the CHECK constraints on every night |
| RoomBlockTransactions.SetNightsCommit | packages/accommodations/src/service-room-blocks.ts:105-122 | A committed upsert is one accepted set-nights on the tables at commit |
| RoomBlockTransactions.PickupCommit | packages/accommodations/src/service-room-blocks.ts:153-219 | A committed pickup is one fresh pickup on the tables at commit, though it read and locked them row by row before |
| RoomBlockTransactions.ReverseCommit | packages/accommodations/src/service-room-blocks.ts:244-281 | A committed reversal, which locks nights only as it updates them, is one reversal on the tables at commit |
| RoomBlockTransactions.ReleaseCommit | packages/accommodations/src/service-room-blocks.ts:316-349 | A committed cutoff is one whole cutoff of its block on the tables at commit |
| RoomBlockTransactions.NoNewNights | packages/accommodations/src/schema-room-blocks.ts:84-86 | While a cutoff holds the header, no commit adds a night to its block, because the foreign key shares the header |
| RoomBlockTransactions.Undisturbed | packages/accommodations/src/service-room-blocks.ts:153-187 | Another transaction's commit changes nothing that a transaction knows through its locks |
| RoomBlockTransactions.NextKeepsOk | packages/accommodations/src/service-room-blocks.ts:153-349 | Every step of every transaction keeps the tables valid and the locks exclusive, and each commit is one successful operation |
| RoomBlockTransactions.CommitsAreSerial | packages/accommodations/src/service-room-blocks.ts:105-350 | The committed tables of any interleaving are those of running the committed operations one after the other in commit order |
| RoomBlockTransactions.ReversalNeverRefused | packages/accommodations/src/service-room-blocks.ts:264-272 | In any interleaving a reversal finds each night and passes the CHECK constraints |
| RoomBlockTransactions.CommitNeverRefused | packages/accommodations/src/schema-room-blocks.ts:94-101 | Every night written at a commit passes the CHECK constraints |
| RoomBlockTransactions.CutoffLeavesNothing | packages/accommodations/src/service-room-blocks.ts:316-349 | In any interleaving a committed cutoff leaves no night of its block with a room |
| RoomBlockTransactions.ConflictIsOnAnotherBlock | packages/accommodations/src/service-room-blocks.ts:166-178 | A pickup meets the unique index on active stay items only because of a pickup on another block |
| RoomBlockSerialRuns.EverySerialRunHappens | packages/accommodations/src/service-room-blocks.ts:105-350 | Every run of writing operations is committed by some history of the step system, the one that runs the transactions one at a time |
| OwnedStays.QuoteMeaning | packages/accommodations/src/service-owned-stays.ts:138-245 | When a stay is quoted, what its total sums up, and that available means every night open with the requested rooms left |
| OwnedStays.QuoteSplits | packages/accommodations/src/service-owned-stays.ts:138-245 | A stay cut at any night is quoted exactly when both parts are in one currency; totals add, the smaller minimum wins |
| OwnedStayTables.BookedIgnoresOrder | packages/accommodations/src/service-owned-stays.ts:528-541 | Booked counts do not depend on the order of the stays |
| OwnedStayTables.RowOrderIsIrrelevant | packages/accommodations/src/schema-inventory.ts:224-228 | With one rate and one inventory row per date, the quote does not depend on the order of the rows |
| OwnedStayTables.OverlapFilterLosesNothing | packages/accommodations/src/service-owned-stays.ts:283-290 | On requested nights the overlap condition gives the same booked counts as scanning all reserved stays |
| OwnedStayTables.FetchedNightsAreOffers | packages/accommodations/src/service-owned-stays.ts:247-305 | The rows fetched for one request give every night its own rate, inventory and booked rooms |
| OwnedStayTables.SharedNightsAreOffers | packages/accommodations/src/service-owned-stays.ts:345-396 | Rows fetched for several plans and filtered by plan give the same nights |
| OwnedStayTables.StaySplits | packages/accommodations/src/service-owned-stays.ts:247-305 | Splitting at any day between check-in and check-out, read from the tables |
| OwnedStayTables.ReservingNeverOverbooks | packages/accommodations/src/service-owned-stays.ts:186-201 | Reserving any sequence of requests, each on its own available quote, keeps every night within its capacity |
| OwnedStayQuotes.RatesByDate | packages/accommodations/src/service-owned-stays.ts:160-166 | The rate map holds the last row of each date |
| OwnedStayQuotes.InventoryByDate | packages/accommodations/src/service-owned-stays.ts:160-166 | The inventory map holds the last row of each date |
| OwnedStayQuotes.BookedRoomsByNight | packages/accommodations/src/service-owned-stays.ts:528-541 | Counting stay by stay and night by night gives, per night, the rooms of all stays covering it |
| OwnedStayQuotes.PriceNights | packages/accommodations/src/service-owned-stays.ts:203-224 | The pricing loop's total is the sum over nights of amount times quantity |
| OwnedStayQuotes.AvailabilityOf | packages/accommodations/src/service-owned-stays.ts:186-201 | The availability loop lists every night's capacity, booked and remaining rooms, and the minimum remaining |
| OwnedStayQuotes.QuoteNights | packages/accommodations/src/service-owned-stays.ts:138-245 | The checks in the order of the code give the specified quote |
| OwnedStayQuotes.ResolveOwnedStayQuote | packages/accommodations/src/service-owned-stays.ts:138-245 | The whole resolution gives the specified quote |
| OwnedStayQuotes.GroupKeyInjective | packages/accommodations/src/service-owned-stays.ts:319-335 | For date texts without a separator the grouping key is equal exactly for the same room type and date texts |
| OwnedStayQuotes.QuoteOwnedStaysBatch | packages/accommodations/src/service-owned-stays.ts:307-403 | The batch answers, in input order, exactly what quoting each request alone answers on the same tables |
| OwnedStaySearch.CollectMatches | packages/accommodations/src/service-owned-stays.ts:446-506 | The double loop finds every quoted and available pair of room and plan, each once, room by room and plan by plan, and nothing else |
| OwnedStaySearch.SortIsStableAndComplete | packages/accommodations/src/service-owned-stays.ts:508-508 | The sort is by price, keeps all matches and the order of equal prices |
| OwnedStaySearch.CursorRoundTrip | packages/accommodations/src/service-owned-stays.ts:670-680 | Parsing a printed cursor gives the offset back exactly up to the largest safe integer |
| OwnedStaySearch.PagesAreTheRest | packages/accommodations/src/service-owned-stays.ts:509-514 | From any cursor the pages that follow are the rest of the list, and nothing past its end |
| OwnedStaySearch.PagingIsComplete | packages/accommodations/src/service-owned-stays.ts:472-514 | Following the cursors terminates and gives the whole sorted list, each match once, for any limit |
| JsonText.QuotedInjective | packages/action-ledger/src/fingerprint.ts:18-20 | A quoted string can be read back off the front of a text, whatever follows |
| CanonicalJson.CanonicalizeValue | packages/action-ledger/src/fingerprint.ts:6-16 | The recursive loop over items and sorted keys gives the specified copy |
| CanonicalOrder.AssembleSorts | packages/action-ledger/src/fingerprint.ts:11-15 | Assigning properties in key order gives one enumeration order that depends only on the keys, index-like keys included |
| CanonicalOrder.CopiedObject | packages/action-ledger/src/fingerprint.ts:6-16 | The copy of an object is sorted and has exactly the copies of its members other than `__proto__` |
| CanonicalMeaning.PrintInjective | packages/action-ledger/src/fingerprint.ts:18-20 | The printer is injective up to meaning: a value can be read back off the front of a text |
| CanonicalMeaning.TextDecidesMeaning | packages/action-ledger/src/fingerprint.ts:6-20 | Two canonical texts are equal exactly when the values are the same up to key order, with undefined and non-finite numbers taken for null and -0 for 0, own `__proto__` properties aside |
| CanonicalMeaning.CopyIsFaithful | packages/action-ledger/src/fingerprint.ts:11-14 | The copy means the same as the value exactly when no object has an own property named `__proto__` |
| CanonicalMeaning.TextDecidesWholeMeaning | packages/action-ledger/src/fingerprint.ts:6-20 | For values without such a property the text decides the whole meaning |
| CanonicalMeaning.ProtoIsPassedOver | packages/action-ledger/src/fingerprint.ts:11-14 | An object with only that property prints like the empty object |
| CanonicalMeaning.StripMeaning | packages/action-ledger/src/fingerprint.ts:11-14 | What the text keeps of a value is the whole meaning of the value without own `__proto__` properties at any depth |
| CanonicalMeaning.CanonicalizeTwice | packages/action-ledger/src/fingerprint.ts:6-16 | Canonicalizing is idempotent |
| Fingerprints.BytesToHex | packages/action-ledger/src/fingerprint.ts:93-99 | The loop appends two hexadecimal digits per byte, in order |
| Fingerprints.HexInjective | packages/action-ledger/src/fingerprint.ts:93-99 | Different digests have different hexadecimal texts |
| Fingerprints.RecordsMeanTheSame | packages/action-ledger/src/fingerprint.ts:29-38 | Records mean the same exactly when every field is absent in both or means the same in both |
| Fingerprints.IdempotencyFingerprintDecides | packages/action-ledger/src/fingerprint.ts:22-38 | Fingerprints are equal exactly when the commands are the same without own `__proto__` properties in their inputs, or the hash collides on their texts |
| Fingerprints.IdempotencyFingerprintDecidesWhole | packages/action-ledger/src/fingerprint.ts:22-38 | For commands without such properties, exactly when they are the same or the hash collides |
| Fingerprints.DifferentCommandsCanShare | packages/action-ledger/src/fingerprint.ts:6-38 | With one, two different commands share a fingerprint under every hash |
| Fingerprints.ApprovalTextDecides | packages/action-ledger/src/fingerprint.ts:63-81 | The hashed record of two approvals has the same text exactly when nothing approved differs but own `__proto__` properties |
| Fingerprints.ApprovalFingerprintDecides | packages/action-ledger/src/fingerprint.ts:63-81 | Approval fingerprints are equal exactly when nothing approved differs but own `__proto__` properties, or the hash collides |
| Fingerprints.ApprovalFingerprintDecidesWhole | packages/action-ledger/src/fingerprint.ts:63-81 | Without such properties, exactly when nothing approved differs or the hash collides |
| Fingerprints.DifferentApprovalsCanShare | packages/action-ledger/src/fingerprint.ts:63-81 | With one, an approval covers a different command under every hash |
| Capabilities.HasScopeGrant | packages/action-ledger/src/capability.ts:320-342 | The loop, overwriting as it goes, answers as the specified table does, and throws where it does |
| Capabilities.HasGrantMeans | packages/action-ledger/src/capability.ts:344-354 | Asking a table throws exactly when no `*` entry decides and the resource is inherited and not listed, and is yes exactly when an entry grants |
| Capabilities.ParsedScopeGrants | packages/action-ledger/src/capability.ts:336-338 | A scope grants its first part's actions named by its second part, both non-empty, `*` standing for anything |
| Capabilities.EnterGrants | packages/action-ledger/src/capability.ts:328-338 | Where it does not throw, entering a scope adds exactly what it grants, also where it overwrites |
| Capabilities.TableThrows | packages/action-ledger/src/capability.ts:328-339 | Entering a scope list throws exactly when some scope in it names an inherited resource |
| Capabilities.ScopesGrantOneByOne | packages/action-ledger/src/capability.ts:320-354 | A scope list grants a capability exactly when some single scope in it does, and exactly when asking throws instead |
| Capabilities.EvaluateRisk | packages/action-ledger/src/capability.ts:138-144 | The evaluated risk is at least the declared and at least the computed one, and is one of them |
| Capabilities.FindSatisfiedGrant | packages/action-ledger/src/capability.ts:286-300 | The search stops at the first satisfied grant, scopes before permissions |
| Capabilities.FirstSatisfiedIs | packages/action-ledger/src/capability.ts:286-310 | The search ends at the first grant not answered no: with its source, scopes before permissions, or by throwing |
| Capabilities.SearchMeans | packages/action-ledger/src/capability.ts:286-354 | The search throws exactly when a scope names an inherited resource or a grant on one is reached undecided; otherwise it finds nothing exactly when nothing is granted |
| Capabilities.AccessMeans | packages/action-ledger/src/capability.ts:146-235 | Unless the search throws, and exactly when it does, access is allowed exactly to internal requests, holders of one of the grants, and actors that may pass without one |
| Capabilities.AccessIsMonotone | packages/action-ledger/src/capability.ts:146-235 | Adding or reordering scopes or adding permission entries keeps an allowed decision exactly when the search does not throw, and never makes a denial of it |
| Capabilities.OrdinaryNamesNeverThrow | packages/action-ledger/src/capability.ts:146-235 | Without inherited names among scopes and required grants the decision never throws |
| Capabilities.ScopeCanTakeAccessAway | packages/action-ledger/src/capability.ts:328-339 | Adding `constructor:read` to a list that grants everything makes every decision that consults it throw |
| Capabilities.KeysCanMeet | packages/action-ledger/src/capability.ts:282-284 | Keys of two ids can be equal exactly when one id continues the other behind an at sign |
| Capabilities.CreateRegistry | packages/action-ledger/src/capability.ts:110-126 | The registry maps every key to its definition, and is refused exactly when two keys are equal |
| DemoSupplier.BillablePax | apps/catalog-demo-api/src/routes.ts:1144-1151 | Adults and children where positive in sum, and never less than one |
| DemoSupplier.ReserveConserves | apps/catalog-demo-api/src/routes.ts:339-402 | A reserve moves places from the departure to the order, the clamp changing nothing |
| DemoSupplier.CancelConserves | apps/catalog-demo-api/src/routes.ts:438-463 | A cancel moves them back, the clamp changing nothing |
| DemoSupplier.RunConserves | apps/catalog-demo-api/src/routes.ts:316-469 | Over any run, places left plus places held by uncancelled orders stay the same and within the capacity |
| DemoSupplier.ConservedExactlyWhen | apps/catalog-demo-api/src/store.ts:159-172 | From a departure with nothing held, every run conserves its places exactly when nothing can be booked or the places left are within the capacity |
| DemoSupplier.RunKeepsOrders | apps/catalog-demo-api/src/store.ts:196-212 | Orders are never removed and only ever become cancelled |
| DemoSupplier.CancelIsFinal | apps/catalog-demo-api/src/routes.ts:438-449 | Cancelling again, whatever happened since, restocks nothing and refunds the same |
| DemoSupplier.AvailableStaysNonNegative | apps/catalog-demo-api/src/store.ts:113-133 | The row counter never goes below zero |
| DemoSupplier.UnpinnedReserveConserves | apps/catalog-demo-api/src/store.ts:113-122 | A reserve without a departure conserves the row's units exactly when one is available |
| DemoSupplier.UnpinnedReserveCanOvershoot | apps/catalog-demo-api/src/routes.ts:1165-1189 | A row with nothing available, sellable through a departure, where such a reserve adds a unit |
| DemoSupplier.CancelConservesUnits | apps/catalog-demo-api/src/store.ts:124-133 | A cancel always conserves the row's units |
| DemoService.Store.AdjustDepartureRemaining | apps/catalog-demo-api/src/store.ts:135-185 | The loop adjusts every departure with the id and leaves the rest, and reports a change exactly when the rows differ |
| DemoService.Store.HandleReserve | apps/catalog-demo-api/src/routes.ts:330-424 | The guards in order, then the order and the stock change, give the specified stock and response |
| DemoService.Store.HandleCancel | apps/catalog-demo-api/src/routes.ts:438-468 | The guards in order, then the status and the restock, give the specified stock and response |
| Migrations.LastTime | apps/catalog-demo-api/scripts/migrate.ts:51-58 | The latest time recorded, zero where nothing is |
| Migrations.Runner.ApplyMigration | apps/catalog-demo-api/scripts/migrate.ts:60-84 | All statements and the record, or neither, depending on whether a step raises |
| Migrations.Runner.Migrate | apps/catalog-demo-api/scripts/migrate.ts:86-102 | The loop gives the specified tables, counts what it applied, and fails exactly when it reaches the failing entry |
| Migrations.RunContinues | apps/catalog-demo-api/scripts/migrate.ts:86-102 | A run goes on from where the table stands and stops exactly at the entry it fails in |
| Migrations.RunsApplyPrefix | apps/catalog-demo-api/scripts/migrate.ts:51-97 | After any runs, failed or not, the applied entries are a prefix of the journal, each once and in order |
| Migrations.CompletesAndRests | apps/catalog-demo-api/scripts/migrate.ts:86-102 | A run without failure completes the journal, and the next applies none |
| Migrations.SafeExactlyWhenRising | apps/catalog-demo-api/scripts/migrate.ts:51-97 | Recovery from failed runs is sound exactly for journals with positive, strictly increasing times |

## Left out

- HTTP routes, OpenAPI and Zod schemas, and tool wrappers around the services: plumbing.
- SQL text, Drizzle and Postgres internals: tables are maps and sequences, `FOR UPDATE` is a row lock held to the end of the transaction, a violated constraint ends a statement without effect.
- Deadlocks, lock queues and progress: a transaction may end at any time; that it ever commits is not claimed.
- The foreign key from pickups to booking items and the locks it takes, and deletion of rows by cascades: the services modelled never delete, and fewer locks allow more interleavings.
- RoomBlockService.Service.constructor: headers are there from the start; creating one later and its check of the room type are not modelled, because a header without nights has no counters.
- Calendar.EachDateInRange: lists days for texts of the form `YYYY-MM-DD` only, because the platform's lenient parser of other texts is not part of this model.
- Block header columns other than the status, rate overrides, notes, deposit and attrition terms: no effect on the counters.
- Timestamps of creation, reversal and update: nothing modelled reads them.
- Empty strings given as ids: the code treats them as absent, and the model takes absent ids as `None`.
- Days that do not exist in their month, which the platform's parser may roll over: such a text names no date here.
- Quote fields that are copied through (cost, tax and fee amounts, names, meal-plan details) and the search filters on destination, stars and refundability: they do not decide what the theorems are about.
- Fractional amounts and decimal price texts: amounts are integer cents, and matches are sorted by cents.
- Functions, symbols, big integers, dates and objects with a `toJSON` in canonical JSON, and arrays with holes: values are JSON-like.
- How a finite number prints: a numeral is a parameter of the value, made of the characters numerals are made of.
- SHA-256 and UTF-8 encoding: one abstract function from a text to bytes.
- Permission tables given as objects with another prototype than the ordinary one: a table is its own entries and the names every object inherits.
- The approval-requirement evaluator and the capability's ledger policy, version and reason texts in the access result: each is read off its input by one branch.
- Demo departures without a numeric `remaining` and departures sharing an id: the operations model them, the conservation theorems are about a unique departure with a number.
- Fractional passenger counts, re-seeding, and concurrent requests in the demo service: it is modelled as a sequence of requests.
- Reading the journal and the SQL files, and statements that end the transaction themselves: an entry is its list of statements.
- Flight synthesis, seed scripts, content cache, overlays and presentation subjects: fixtures and display.
