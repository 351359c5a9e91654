# Sismatic in Dafny

A model of the parts of Sismatic that are hard to get right by reading: the bounded in-memory store and
its ledger, alone and under concurrent callers; the configuration resolver and the round trip that
reloading rests on; the reconciliation of per-device relay tasks with the registry; and the smaller
pieces those depend on (timestamps as text, byte sizes, the schema walk, batch settlement, the sweeper's
reports).

`dafny verify dfyconfig.toml` checks everything.

## How it is laid out

| file | holds |
|---|---|
| `Base.dfy`, `Text.dfy`, `Reads.dfy` | sequences and sums, the order of strings, reads with their costs and slots |
| `StoreModel.dfy` | the reference store: one write-ordered list and the last read per field; the laws of every run |
| `Ledger.dfy`, `History.dfy`, `MemoryStore.dfy` | the ledger, the nested history map and the store as they are updated in place, each method proved to be one step of the reference |
| `Interleaving.dfy` | the store as a step system of critical sections, any number of callers, and the laws every state of every run satisfies |
| `Overlap.dfy` | for each promise of the store, the exact condition on a run under which it holds, removals overlapping anything |
| `Removal.dfy` | a condition on overlaps that is enough, and runs in which an overlap does harm, or none |
| `Timestamps.dfy` | fixed-width timestamps, the calendar, and bounds written with any fraction or none |
| `Units.dfy` | sizes in words: reading and writing |
| `Fields.dfy` | the poll schedule: specification, uniqueness, and the two passes that compute it |
| `Configuration.dfy`, `LiveSettings.dfy` | resolve, publish, patch, reload; and the adapter that puts a change into force |
| `Relay.dfy`, `Batch.dfy`, `Fleet.dfy` | the task diff, batch dispatch, and the announce-and-observe protocol |
| `Sweeper.dfy` | the sweep and what it reports |
| `Schema.dfy` | the walk over component schemas |

The store is related to its reference three times over. `Ledger.Stands` says the books are exact.
`MemoryStore.Agrees` adds that every series is the write order cut down to its key, that no empty key is
left, and that `latest` is the reference's. `Interleaving.Law` holds while callers are mid-way, in every
run: what they still have to apply is accounted for claim by claim and byte by byte, and what a removal
clears from under others is accounted as owed.

## Assumptions

- A write's stamp is not older than the live entries of its series, and a series has one write under way
  at a time. This is the premise stated at crates/sismatic-store-memory/src/lib.rs:394-411. It is a
  precondition of a write (`StoreModel.Follows`).
- `humantime`, `chrono` and the fractional path of a size are parameters (`Configuration.Codec`), asked only
  to read back what they render (`Configuration.Faithful`; `PlainCodecFaithful` shows the demand can be met).
- The catalog is a list of distinct names with an idempotent lookup (`Fields.ValidCatalog`).
- Property names in schemas hold no dots (`Schema.DotFree`). The schemas walked are derived from Rust
  structs, whose field names cannot. `DottedNamesCollide` shows what the assumption is for; names need not
  be non-empty.

## What does not hold as promised

Each of these has a lemma giving the input, or the run, and a lemma giving the exact condition under which
the promise holds.

- Forgetting a device takes its last reads, tells the ledger and clears its history in three sections, with
  nothing held between them. Callers of the same device that overlap it can leave a slot without an entry
  (`OverlapLosesEntry`), bytes counted for last reads that are gone (`OverlapMiscounts`), or a last read of
  a forgotten device (`OverlapOutlivesRemoval`), with every caller finished; other overlaps do no harm
  (`OverlapHarmless`). The conditions are exact for every run, whatever overlaps, and are read off its steps.
  The total of last reads is right exactly if no subtraction saturated (`TotalExact`); a series and its queue
  match exactly if no entry cleared away is still owed (`SeriesSplit`); the last reads follow the order of the
  ledger's lock exactly if no removal came after the last write of a field in one order and before it in the
  other (`LatestExact`). `SoundExact` puts the three together, and `Linearizable` gives the exact condition
  for the run to be what one caller would have done, evictions included. `CleanIsEnough` is one way only: a
  condition on overlaps that is easier to see and is enough.
- A sweep pops as many fronts as it claimed, so it deletes the expired entries exactly if they stand in
  front of every series: `SweepExact`, `SweepDeletesLive`.
- String order is said to be time order for any RFC 3339 UTC text. Against a bound it is so exactly if the
  two fall in different seconds, or the bound is written to the millisecond, or the fractions part within the
  digits they share: `BoundAgreesExactly`. Without a fraction, the form the documentation's examples use, that
  leaves different seconds: `PlainAgreesExactly`, `PlainStartLosesItsSecond`. The bound standing for the
  beginning of time is therefore not below every stamp: `UnboundedSpan`.
- Evictions found on a tick that also finds the store over budget are never reported: `ReportsAddUp`,
  `HiddenEviction`.
- The reconciler's first read marks earlier announcements as seen without acting on them:
  `FirstReadExact`, `EarlyAnnouncementMissed`. Any later announcement repairs it: `WakeRepairs`.
- A configuration whose file schedules a name outside the catalog publishes a document that is refused
  when sent back: `RoundTrip`, `UnknownNameRefused`.

## Model

| member | source | states |
|---|---|---|
| `Reads.ByteLenConcat` | crates/sismatic-store-memory/src/lib.rs:506-514 | lengths in bytes add up over concatenation |
| `Reads.ByteLenAscii` | crates/sismatic-store-memory/src/lib.rs:506-514 | text counts its length exactly if every character is below 0x80, and never more than four bytes a character |
| `Reads.CharacterBytes` | crates/sismatic-store-memory/src/lib.rs:506-514 | a character counts as few bytes as can carry it in UTF-8 |
| `Reads.TextGrows` | crates/sismatic-store-memory/src/lib.rs:516-530 | text in a value of any kind that holds text raises the cost of the read by exactly its bytes, in both places the read is kept |
| `Reads.AlarmsGrow` | crates/sismatic-store-memory/src/lib.rs:516-530 | one more alarm raises it by the alarm's struct and its two texts |
| `Reads.KeyGrows` | crates/sismatic-store-memory/src/lib.rs:532-542 | text in the device or the stamp is paid for once among last reads and twice in history, text in the field twice in both |
| `Reads.BareCost` | crates/sismatic-store-memory/src/lib.rs:506-542 | without any text an entry costs its structs and the overhead of one node |
| `StoreModel.Excess` | crates/sismatic-store-memory/src/lib.rs:370-388 | the number of entries an enforcement evicts: enough, and no shorter prefix of the write order is enough |
| `StoreModel.ExcessUnique` | crates/sismatic-store-memory/src/lib.rs:370-388 | no other number is both enough and shortest |
| `StoreModel.StepWithinCap` | crates/sismatic-store-memory/src/lib.rs:470-504 | every operation leaves usage within the cap or no history at all |
| `StoreModel.RunWithinCap` | crates/sismatic-store-memory/src/lib.rs:370-388 | the same after every run from an empty store |
| `StoreModel.RecapInSteps` | crates/sismatic-store-memory/src/lib.rs:194-199 | lowering the cap in two decreasing steps leaves the contents and eviction count that lowering it once leaves |
| `StoreModel.RaiseEvictsNothing` | crates/sismatic-store-memory/src/lib.rs:478-484 | raising, removing or restating the cap evicts nothing |
| `StoreModel.LiveIsSuffix` | crates/sismatic-store-memory/src/lib.rs:370-388 | without sweeps or removals, live history is the write log minus its oldest `evicted` entries |
| `StoreModel.PruneTwice` | crates/sismatic-store-memory/src/lib.rs:632-641 | two sweeps in either order are one sweep at the later cutoff |
| `StoreModel.PruneExact` | crates/sismatic-store-memory/src/lib.rs:390-434 | a read survives a sweep exactly if it was live and is not stamped before the cutoff; `latest` is untouched |
| `StoreModel.Conservation` | crates/sismatic-store-memory/src/lib.rs:377-459 | over every run, writes equal live plus evicted plus swept plus forgotten entries |
| `StoreModel.EvictedGrows` | crates/sismatic-store-memory/src/lib.rs:377-388 | the eviction counter of a run is never below that of any earlier moment |
| `StoreModel.LatestIsLastWrite` | crates/sismatic-store-memory/src/lib.rs:594-627 | `latest` holds the last write of a field since its device was forgotten, whatever was evicted, swept or re-capped |
| `StoreModel.LiveEndsUnevicted` | crates/sismatic-store-memory/src/lib.rs:377-388 | over every run the live entries are the latest of what sweeps and removals alone would have left |
| `StoreModel.StepSeriesSorted` | crates/sismatic-store-memory/src/lib.rs:394-411 | every operation keeps stamps in order inside each series |
| `StoreModel.SortedExpiresFirst` | crates/sismatic-store-memory/src/lib.rs:394-411 | in a series in stamp order the expired entries stand in front |
| `Ledger.TakeOverBudgetSheds` | crates/sismatic-store-memory/src/lib.rs:377-388 | the eviction loop claims the shortest sufficient prefix, whatever is counted for last reads; the history total stays exact and no subtraction saturates |
| `Ledger.AdmitLists` | crates/sismatic-store-memory/src/lib.rs:470-476 | whatever figures it is handed, an admission splits the write order into what is claimed and what stays, keeps the queue and its total exact, and ends within the cap or with no history |
| `Ledger.TakeIfLists` | crates/sismatic-store-memory/src/lib.rs:413-459 | whatever is counted for last reads, a scan claims exactly the selected entries, and the bytes it reports are the drop in the history total |
| `Ledger.EnforceStands` | crates/sismatic-store-memory/src/lib.rs:370-375 | enforcing the cap keeps the books exact and claims what the reference evicts |
| `Ledger.AdmitStands` | crates/sismatic-store-memory/src/lib.rs:470-476 | admitting a write keeps queue and both totals exact; the displaced read never costs more than the total |
| `Ledger.AdmitSheds` | crates/sismatic-store-memory/src/lib.rs:470-476 | a write splits the write order, the new entry included, into what is claimed and what stays |
| `Ledger.RecapStands` | crates/sismatic-store-memory/src/lib.rs:478-484 | re-capping keeps the books exact and claims what the reference evicts |
| `Ledger.RecapSheds` | crates/sismatic-store-memory/src/lib.rs:478-484 | a re-cap splits the write order into what is claimed and what stays |
| `Ledger.TakeIfStands` | crates/sismatic-store-memory/src/lib.rs:413-459 | a scan claims exactly the selected entries, and the bytes it reports are the drop in the total |
| `Ledger.ForgetStands` | crates/sismatic-store-memory/src/lib.rs:498-504 | forgetting a device lowers both totals by exactly its share |
| `Ledger.DrainExact` | crates/sismatic-store-memory/src/lib.rs:413-434 | repeated saturating subtraction of claimed slots equals exact subtraction of their sum |
| `Ledger.Ledger.constructor` | crates/sismatic-store-memory/src/lib.rs:162-173 | a new ledger is empty under the given cap |
| `Ledger.Ledger.TakeOver` | crates/sismatic-store-memory/src/lib.rs:377-388 | the in-place loop does what the value-level recursion does |
| `Ledger.Ledger.EnforceCap` | crates/sismatic-store-memory/src/lib.rs:370-375 | an unbounded ledger claims nothing, a bounded one its excess |
| `Ledger.Ledger.Take` | crates/sismatic-store-memory/src/lib.rs:413-459 | the scan splits the queue into claimed and kept, both in queue order |
| `Ledger.Ledger.AdmitWrite` | crates/sismatic-store-memory/src/lib.rs:464-476 | one critical section: restate, record, enforce |
| `Ledger.Ledger.SetCap` | crates/sismatic-store-memory/src/lib.rs:478-484 | one critical section: new cap, then enforce |
| `Ledger.Ledger.ExpireBefore` | crates/sismatic-store-memory/src/lib.rs:486-490 | one critical section claiming everything stamped before the cutoff |
| `Ledger.Ledger.ForgetDevice` | crates/sismatic-store-memory/src/lib.rs:492-504 | one critical section: latest bytes down, the device's slots claimed |
| `History.ExpiryTakesFronts` | crates/sismatic-store-memory/src/lib.rs:394-411 | expired entries are a prefix of every series although the queue interleaves series |
| `History.ForgettingClearsDevice` | crates/sismatic-store-memory/src/lib.rs:436-459 | forgetting empties the device's series and no other |
| `History.DropOneTidy` | crates/sismatic-store-memory/src/lib.rs:248-279 | a pop leaves no empty series and no empty device behind |
| `History.DropOneMore` | crates/sismatic-store-memory/src/lib.rs:248-279 | each pop shortens its own series by one front and no other |
| `History.PushProjects` | crates/sismatic-store-memory/src/lib.rs:619-622 | pushing onto a series appends to the write order it projects |
| `History.EvictedProjects` | crates/sismatic-store-memory/src/lib.rs:248-279 | evicting a prefix of the write order pops a prefix of every series: one front per claimed slot leaves each series the projection of what was not evicted |
| `History.SweepExact` | crates/sismatic-store-memory/src/lib.rs:248-279 | a sweep's pops, in queue order across all series, leave exactly the entries not stamped before the cutoff if and only if the expired entries stand in front of every series |
| `History.SweepDeletesLive` | crates/sismatic-store-memory/src/lib.rs:394-411 | of two reads of one field whose stamps go back, a sweep between them deletes the one that had not expired and keeps the one that had |
| `History.ExpiredProjects` | crates/sismatic-store-memory/src/lib.rs:632-641 | so they do when stamps do not go back inside a series |
| `History.ForgottenProjects` | crates/sismatic-store-memory/src/lib.rs:219-233 | removing the device's map leaves the projection of what was not forgotten |
| `MemoryStore.WriteAgrees` | crates/sismatic-store-memory/src/lib.rs:594-627 | a write through all three structures is one reference write |
| `MemoryStore.RecapAgrees` | crates/sismatic-store-memory/src/lib.rs:194-199 | a re-cap through all three structures is one reference re-cap, and the slots claimed are the entries evicted |
| `MemoryStore.SweepAgrees` | crates/sismatic-store-memory/src/lib.rs:632-641 | a sweep through all three structures is one reference sweep, and its entries and bytes are the fall in usage |
| `MemoryStore.MemoryStore.constructor` | crates/sismatic-store-memory/src/lib.rs:162-173 | a new store is the empty reference, with no operation behind it |
| `MemoryStore.MemoryStore.DropSlot` | crates/sismatic-store-memory/src/lib.rs:248-279 | one pop, with the series' and the device's key removed when they empty |
| `MemoryStore.MemoryStore.DropFront` | crates/sismatic-store-memory/src/lib.rs:248-279 | every series loses exactly one front per slot of its key, and no empty key remains |
| `MemoryStore.MemoryStore.FileRead` | crates/sismatic-store-memory/src/lib.rs:612-622 | the map half of a write, with the cost of the read it displaced |
| `MemoryStore.MemoryStore.UpsertLatest` | crates/sismatic-store-memory/src/lib.rs:594-627 | keeps the representation invariant, which ties the store to the reference run of every operation so far, and adds one write to that run |
| `MemoryStore.MemoryStore.SetBudget` | crates/sismatic-store-memory/src/lib.rs:181-199 | keeps the invariant, adds one re-cap to the run, leaves `latest`, reports the entries evicted |
| `MemoryStore.MemoryStore.Prune` | crates/sismatic-store-memory/src/lib.rs:632-641 | keeps the invariant, adds one sweep to the run, and reports the entries and the bytes by which usage fell |
| `MemoryStore.MemoryStore.DropLatest` | crates/sismatic-store-memory/src/lib.rs:219-226 | removes the device's last reads and sums what they cost |
| `MemoryStore.TotalBytes` | crates/sismatic-store-memory/src/lib.rs:222-226 | the loop's total is the sum over the device's last reads, in whatever order they are visited |
| `MemoryStore.MemoryStore.ForgetDevice` | crates/sismatic-store-memory/src/lib.rs:219-233 | keeps the invariant, adds one removal to the run, and reports the entries dropped |
| `MemoryStore.MemoryStore.GetUsage` | crates/sismatic-store-memory/src/lib.rs:643-651 | usage is the exact cost of what is stored; it is over budget exactly if the last reads alone cost more than the budget, and then no history is left; entries, evictions, swept and forgotten entries add up to every write the store was given |
| `MemoryStore.MemoryStore.GetLatest` | crates/sismatic-store-memory/src/lib.rs:546-551 | answers with the last write of the field since its device was forgotten, read off the operations the store was given |
| `MemoryStore.MemoryStore.Between` | crates/sismatic-store-memory/src/lib.rs:563-589 | answers with the live writes of the series inside the span, in write order and in stamp order; without sweeps or removals, those of the write log minus its oldest evicted entries |
| `Interleaving.NextLaw` | crates/sismatic-store-memory/src/lib.rs:594-641 | every critical section of every caller, whatever it overlaps, keeps the laws of the store: queue, stored series, last reads and totals each account for the others and for what is under way |
| `Interleaving.RunLaw` | crates/sismatic-store-memory/src/lib.rs:89-103 | so every state of every run satisfies them, removals included |
| `Interleaving.NextLedger` | crates/sismatic-store-memory/src/lib.rs:370-388 | every step keeps the queue and its total exact, the cap held, and the live entries the latest of what sweeps and removals alone would have left |
| `Interleaving.NextSeries` | crates/sismatic-store-memory/src/lib.rs:248-279 | every step keeps each series a tail of what was filed there, cut by what was claimed; only a removal clearing the history leaves anything owed, and only a pop that misses pays for it |
| `Interleaving.RunSeries` | crates/sismatic-store-memory/src/lib.rs:248-279 | so in every run each series holds everything filed there but what was claimed and popped, less exactly what the run's steps leave owed |
| `Interleaving.NextTotals` | crates/sismatic-store-memory/src/lib.rs:353-368 | every step keeps what the books count for last reads, and what writes and removals under way have yet to tell them, in balance with `latest`, up to what saturating subtractions failed to take |
| `Interleaving.NextLatest` | crates/sismatic-store-memory/src/lib.rs:594-617 | `latest` answers with the last write in the order the map was touched, and writes reach the map and the ledger in one order per field |
| `Interleaving.NextHistory` | crates/sismatic-store-memory/src/lib.rs:264-279 | every step leaves no emptied series, and no emptied device but one that a caller is about to remove, though writes may refill it first |
| `Interleaving.ReaderInOrder` | crates/sismatic-store-memory/src/lib.rs:563-589 | in every state of every run whose stamps do not go back inside a series, `between` answers oldest first |
| `Interleaving.CanFinish` | crates/sismatic-store-memory/src/lib.rs:248-279 | from every state the callers under way can reach quiescence by their own next steps, with nothing new started |
| `Overlap.SeriesSplit` | crates/sismatic-store-memory/src/lib.rs:89-103 | in every state of every run each series is its claimed-but-not-popped entries, then the ledger's queue cut to its key, then the entry not admitted yet, if and only if nothing of it is owed |
| `Overlap.PopFindsEntry` | crates/sismatic-store-memory/src/lib.rs:248-279 | in every run an evictor about to pop finds an entry if and only if fewer are owed than are claimed, live or on their way |
| `Overlap.PopNeverMisses` | crates/sismatic-store-memory/src/lib.rs:248-279 | a pop of a series that owes nothing always finds an entry, whoever popped before it |
| `Overlap.ReaderSees` | crates/sismatic-store-memory/src/lib.rs:98-103 | in every state of every run a reader of a series that owes nothing is answered the claimed entries not popped yet, the live ones and the one on its way, each cut to the span |
| `Overlap.SurplusExact` | crates/sismatic-store-memory/src/lib.rs:353-368 | bytes are left over in a run if and only if one of its subtractions saturated |
| `Overlap.TotalExact` | crates/sismatic-store-memory/src/lib.rs:353-368 | once every caller of a run has finished, the books count what `latest` costs if and only if no subtraction saturated; no other overlap can put the total wrong |
| `Overlap.SettleExact` | crates/sismatic-store-memory/src/lib.rs:470-476 | admitting a write keeps the books exact if and only if the cost it displaces is the cost they count for the field |
| `Overlap.ForgetExact` | crates/sismatic-store-memory/src/lib.rs:498-504 | counting a device out keeps the books exact if and only if the bytes given are its share, or exceed it while nothing else is counted |
| `Overlap.ReleaseExact` | crates/sismatic-store-memory/src/lib.rs:228-228 | a removal telling the ledger keeps the books exact under exactly that condition |
| `Overlap.RunStands` | crates/sismatic-store-memory/src/lib.rs:462-504 | from any state whose books are the reference's, they stay so through a run if and only if each step hands the ledger the figures it counts |
| `Overlap.BooksExact` | crates/sismatic-store-memory/src/lib.rs:333-368 | in every run the books, evictions included, are throughout those of one caller taking the same steps in the lock's order if and only if each step hands the ledger the figures it counts |
| `Overlap.LatestExact` | crates/sismatic-store-memory/src/lib.rs:219-233 | a field with no write under way answers with its last write since its device was forgotten, in the lock's order, if and only if no removal crossed that write |
| `Overlap.SoundExact` | crates/sismatic-store-memory/src/lib.rs:89-103 | once every caller of a run has finished, totals, queue, history and last reads agree with each other and with the lock's order if and only if no subtraction saturated, nothing cleared is owed and no removal crossed the last write of a field |
| `Overlap.AgreesExact` | crates/sismatic-store-memory/src/lib.rs:89-103 | once every caller has finished and the books are the reference's, the whole store is the reference if and only if nothing cleared is owed and no removal crossed a last write |
| `Overlap.Linearizable` | crates/sismatic-store-memory/src/lib.rs:89-103 | a run whose callers have all finished was throughout, and left, what one caller would have left in the order of the ledger's lock, removals included, if and only if each step handed the ledger the figures it counts, nothing cleared is owed and no removal crossed a last write |
| `Overlap.TraceIsSteps` | crates/sismatic-store-memory/src/lib.rs:462-504 | the orders a state records are the orders in which the run's steps took the lock and touched `latest` |
| `Removal.CleanIsEnough` | crates/sismatic-store-memory/src/lib.rs:219-233 | a run whose removals meet no write, claim or removal of their device they would undo is linearizable throughout |
| `Removal.NoRemovalIsClean` | crates/sismatic-store-memory/src/lib.rs:594-641 | every interleaving of writes, sweeps and re-caps is such a run |
| `Removal.AloneIsClean` | crates/sismatic-store-memory/src/lib.rs:219-233 | a removal overlapping no write, claim or removal of its device is such from end to end |
| `Removal.OverlapLosesEntry` | crates/sismatic-store-memory/src/lib.rs:219-233 | a run ending with every caller finished in which a write admitted between the ledger half and the history half keeps its slot and loses its entry |
| `Removal.OverlapMiscounts` | crates/sismatic-store-memory/src/lib.rs:219-233 | a run ending with every caller finished in which a write past its insert when its device is removed leaves bytes counted for last reads that are not there |
| `Removal.OverlapOutlivesRemoval` | crates/sismatic-store-memory/src/lib.rs:219-233 | a run ending with every caller finished in which a write admitted while the removal holds the last reads leaves the device answering after it was forgotten |
| `Removal.OverlapHarmless` | crates/sismatic-store-memory/src/lib.rs:219-233 | a run in which a write past its insert when its device is removed is admitted before the ledger hears of the removal, and everything ends empty and exact |
| `Timestamps.StampOrder` | crates/sismatic-server/src/lifecycle.rs:103-107 | on fixed-width UTC stamps with milliseconds, text order is the order of instants, and equal text is the same instant |
| `Timestamps.RenderOrder` | crates/sismatic-server/src/lifecycle.rs:103-107 | fixed-width fields, most significant first, sort as text by their values |
| `Timestamps.YearStart` | crates/sismatic-server/src/lifecycle.rs:103-107 | the days before a year are 365 for each before it and one for each leap year |
| `Timestamps.MonthStarts` | crates/sismatic-server/src/lifecycle.rs:103-107 | the days before each month of a year |
| `Timestamps.Epoch` | crates/sismatic-server/src/lifecycle.rs:103-107 | instants count milliseconds, the epoch of 1970 being 719,528 days in |
| `Timestamps.HeadShape` | crates/sismatic-server/src/lifecycle.rs:103-107 | a stamp is its digits at their places with the separators between them |
| `Timestamps.SweepByInstant` | crates/sismatic-store-memory/src/lib.rs:413-434 | a sweep drops a read exactly if its instant precedes the cutoff's |
| `Timestamps.SpanByInstant` | crates/sismatic-api-types/src/read.rs:95-103 | a span of stamped bounds holds a read exactly if its instant lies in the closed interval |
| `Timestamps.PlainOrder` | crates/sismatic-api-types/src/read.rs:95-103 | a bound without a fraction sorts after every stamp of its own second |
| `Timestamps.PlainAgreesExactly` | crates/sismatic-api-types/src/read.rs:95-103 | against such a bound text order is time order if and only if the two fall in different seconds |
| `Timestamps.BoundAgreesExactly` | crates/sismatic-api-types/src/read.rs:95-103 | against a bound written with any fraction text order is time order if and only if the two fall in different seconds, or the bound is written to the millisecond, or the fractions part within the digits they share |
| `Timestamps.PlainStartLosesItsSecond` | crates/sismatic-api-types/src/read.rs:95-103 | a query starting at a whole second written without a fraction misses the read stamped at that instant |
| `Timestamps.UnboundedSpan` | crates/sismatic-http-api/src/handlers/reads.rs:99-127 | the span standing for no bounds holds every stamp except those of the first second of year zero |
| `Units.WholeNumberExact` | crates/sismatic-server/src/units.rs:79-140 | a whole number with any known unit, case and white space is read as the exact product; refused exactly if the number or the product passes 64 bits |
| `Units.OnlyWholeNumbers` | crates/sismatic-server/src/units.rs:79-140 | whatever is accepted without a decimal point has that form |
| `Units.UnitPowers` | crates/sismatic-server/src/units.rs:93-106 | the bare and `i` units are powers of 1024 and the others powers of 1000 |
| `Units.OnlyUnits` | crates/sismatic-server/src/units.rs:93-106 | nothing else is a unit |
| `Units.FractionHandedOn` | crates/sismatic-server/src/units.rs:108-136 | a number with a decimal point in a known unit goes to the floating-point path with its scale |
| `Units.UnknownUnitRefused` | crates/sismatic-server/src/units.rs:105-105 | a word that is no unit is refused as such |
| `Units.WhiteListed` | crates/sismatic-server/src/units.rs:80-80 | what is trimmed is the twenty-five white characters of Unicode |
| `Units.LowerOnlyLetters` | crates/sismatic-server/src/units.rs:94-94 | lower case moves the Latin capitals and nothing else |
| `Units.ChosenUnit` | crates/sismatic-server/src/units.rs:156-172 | the unit written is the largest binary unit dividing the number |
| `Units.FormatRoundTrip` | crates/sismatic-server/src/units.rs:143-172 | every 64-bit size reads back from its text as itself |
| `Units.FormatStartsWithDigit` | crates/sismatic-server/src/units.rs:156-172 | a rendered size starts with a digit, so it never reads as a sentinel word |
| `Fields.ScheduleMeetsSpec` | crates/sismatic-server/src/configuration.rs:359-434 | the schedule has each mentioned name once, in order of first mention with a wildcard mentioning the catalog in place, and each interval is the last explicit mention's, else the first wildcard's |
| `Fields.ScheduleUnique` | crates/sismatic-server/src/configuration.rs:359-434 | nothing else meets that specification |
| `Fields.InOrderUnique` | crates/sismatic-server/src/configuration.rs:400-434 | only one list holds the mentioned names in order of first mention |
| `Fields.CollectExplicit` | crates/sismatic-server/src/configuration.rs:381-399 | after pass 1 a lookup answers with the last explicit mention of every name, and with nothing for any other |
| `Fields.PushField` | crates/sismatic-server/src/configuration.rs:400-410 | appends a name unless it is listed already |
| `Fields.PushCatalog` | crates/sismatic-server/src/configuration.rs:411-424 | a wildcard's turn lays out the mentions so far followed by the whole catalog |
| `Fields.LayOut` | crates/sismatic-server/src/configuration.rs:400-434 | pass 2 lays out exactly the specified schedule |
| `Fields.ResolveFields` | crates/sismatic-server/src/configuration.rs:359-434 | both passes together meet the specification on the canonicalised entries |
| `Fields.WildcardPositionIrrelevant` | crates/sismatic-server/src/configuration.rs:400-434 | moving a wildcard past named entries changes no name and no interval of the schedule |
| `Fields.PlainSchedule` | crates/sismatic-server/src/configuration.rs:359-434 | a list of distinct names resolves to itself, entry by entry |
| `Configuration.ScheduleWellFormed` | crates/sismatic-server/src/configuration.rs:359-447 | whatever was written, the resolved names are distinct, canonical and not the wildcard, and no interval is zero |
| `Configuration.ResolvedWellFormed` | crates/sismatic-server/src/configuration.rs:223-348 | every resolved file is well formed |
| `Configuration.PatchedWellFormed` | crates/sismatic-server/src/configuration.rs:1121-1178 | every accepted patch keeps a configuration well formed |
| `Configuration.RetimedSchedule` | crates/sismatic-server/src/configuration.rs:1201-1240 | a patch naming only an interval is accepted and re-times every scheduled field and nothing else |
| `Configuration.PatchFolds` | crates/sismatic-server/src/configuration.rs:1121-1301 | an accepted patch leaves every setting it does not name as it is, section by section, and moves each it names to what that value alone reads as; the removal policy and the fixed sections never move |
| `Configuration.PatchRefusals` | crates/sismatic-server/src/configuration.rs:1121-1264 | a patch is refused as fixed exactly if it names a fixed setting at another value, and otherwise as malformed exactly if it schedules a field that cannot be queried or holds a text that cannot be read |
| `Configuration.WordsRead` | crates/sismatic-server/src/configuration.rs:648-697 | `forever`, `never` and `unlimited` are read in any case and with any white space around them |
| `Configuration.SecondsRead` | crates/sismatic-server/src/units.rs:52-66 | a whole number, with or without a plus sign, is that many seconds; as a retention, zero is refused |
| `Configuration.SizesRead` | crates/sismatic-server/src/units.rs:79-140 | a budget is the exact product of its whole number and unit if that fits in 64 bits, or what the floating-point path makes of a fraction |
| `Configuration.BuiltIn` | crates/sismatic-server/src/configuration.rs:223-298 | a file that says nothing runs the whole catalog every thirty seconds, keeps a day in 256 MiB, sweeps every five minutes, polls every quarter second, tries three times and serves on 127.0.0.1:8080 |
| `Configuration.SectionThenDefault` | crates/sismatic-server/src/configuration.rs:245-265 | a section's own interval, fields, host and port stand before the shared defaults, and those before the built-in ones |
| `Configuration.GivenStands` | crates/sismatic-server/src/configuration.rs:267-296 | every other setting a file gives is the one in force, zero read as that setting reads it |
| `Configuration.RetentionReadsBack` | crates/sismatic-server/src/configuration.rs:1094-1106 | a rendered retention reads back as itself |
| `Configuration.CleanupReadsBack` | crates/sismatic-server/src/configuration.rs:1056-1059 | a rendered sweep interval, `never` included, reads back as itself |
| `Configuration.BudgetReadsBack` | crates/sismatic-server/src/configuration.rs:1060-1063 | a rendered budget, `unlimited` included, reads back as itself |
| `Configuration.ReloadExact` | crates/sismatic-server/src/configuration.rs:1121-1178 | one configuration's document folded onto another is refused exactly if it moves a fixed setting or names a field outside the catalog; otherwise every setting becomes the loaded one, except the removal policy and the inventory |
| `Configuration.RoundTrip` | crates/sismatic-api-types/src/config.rs:302-333 | a configuration's own document is a patch that changes nothing if every scheduled name is in the catalog, and is refused otherwise |
| `Configuration.ReachableWellFormed` | crates/sismatic-server/src/configuration.rs:1121-1178 | every configuration a file and any patches lead to is well formed |
| `Configuration.ReachableRoundTrip` | crates/sismatic-server/src/configuration.rs:1037-1086 | the round trip holds of every such configuration |
| `Configuration.UnknownNameRefused` | crates/sismatic-server/src/configuration.rs:1242-1264 | a file scheduling one name outside the catalog resolves to that schedule, and its own document is refused as malformed |
| `Configuration.ReloadTwice` | crates/sismatic-server/src/dynamic.rs:241-270 | after an accepted reload, folding in the same file again returns the same configuration |
| `LiveSettings.HandleHealthy` | crates/sismatic-server/src/dynamic.rs:152-180 | every accepted or refused request, and all store traffic, keeps each enforcer in agreement with the reported settings |
| `LiveSettings.AlwaysEnforced` | crates/sismatic-server/src/dynamic.rs:122-180 | so in every run from start-up; the store is within the reported budget or has no history |
| `LiveSettings.ReloadEffect` | crates/sismatic-server/src/dynamic.rs:241-270 | a reload leaves everything as it was, or everything runs as the file says except the removal policy and the inventory; a second reload changes nothing, stored reads included |
| `LiveSettings.Outbox.constructor` | crates/sismatic-store-memory/src/outbox.rs:239-246 | a retry budget of zero reads as one |
| `LiveSettings.Outbox.SetMaxAttempts` | crates/sismatic-store-memory/src/outbox.rs:262-265 | a retry budget of zero reads as one |
| `LiveSettings.Settings.constructor` | crates/sismatic-server/src/dynamic.rs:122-147 | settings built over a store and outbox that already hold them are in agreement |
| `LiveSettings.Settings.PublishNext` | crates/sismatic-server/src/dynamic.rs:152-180 | all five enforcers and the report move together, the store evicting at once |
| `LiveSettings.Settings.Apply` | crates/sismatic-server/src/dynamic.rs:233-239 | applied whole and enforced exactly if the patch moves no fixed setting and all of it can be read, each setting named then being what its value says and every other as it was; else nothing changes and the refusal says which kind |
| `LiveSettings.Settings.Reload` | crates/sismatic-server/src/dynamic.rs:241-270 | an unreadable file is a source failure, a moved fixed setting and an unknown scheduled name are told apart, and none of them changes anything; otherwise one fold of the file's document |
| `Relay.CountsAddUp` | crates/sismatic-intent-relay/src/relay.rs:135-200 | started, rebound and untouched add up to the wanted devices; stopped, rebound and untouched to the previously running ones |
| `Relay.SecondPassChangesNothing` | crates/sismatic-intent-relay/src/relay.rs:135-200 | a second pass over the same registry touches no task and counts every device as untouched |
| `Relay.MatchingTouchesNothing` | crates/sismatic-intent-relay/src/relay.rs:135-200 | a pass over tasks that already match touches none |
| `Relay.PassCounts` | crates/sismatic-intent-relay/src/relay.rs:172-199 | tasks spawned are the new devices plus the rebound ones, so the reported difference never underflows |
| `Relay.PassApplied` | crates/sismatic-intent-relay/src/relay.rs:135-200 | stopping the stale tasks and starting the missing ones gives the wanted map, unchanged devices keeping their entries |
| `Relay.RelayHandle.constructor` | crates/sismatic-intent-relay/src/relay.rs:203-236 | a new handle runs nothing |
| `Relay.RelayHandle.StopTask` | crates/sismatic-intent-relay/src/relay.rs:161-164 | one task cancelled and forgotten |
| `Relay.RelayHandle.StartTask` | crates/sismatic-intent-relay/src/relay.rs:178-194 | one task started under a token not used before |
| `Relay.RelayHandle.StopAll` | crates/sismatic-intent-relay/src/relay.rs:151-170 | exactly the stale tasks are cancelled, counted as rebound or stopped |
| `Relay.RelayHandle.StartIfMissing` | crates/sismatic-intent-relay/src/relay.rs:173-194 | a device with a task keeps it, one without gains one bound to its uuid |
| `Relay.RelayHandle.StartMissing` | crates/sismatic-intent-relay/src/relay.rs:172-195 | every wanted device ends with a task; entries already there are the same entries |
| `Relay.RelayHandle.Apply` | crates/sismatic-intent-relay/src/relay.rs:135-200 | running ids and uuids equal the registry's, unchanged devices keep their task, only stale tasks are cancelled, and all four counters are exact |
| `Batch.Drain.Settle` | crates/sismatic-intent-relay/src/relay.rs:433-440 | one outcome reported after those before it; recorded are exactly the reports the queue accepts |
| `Batch.Drain.SettleAll` | crates/sismatic-intent-relay/src/relay.rs:420-429 | every row gets one outcome, in row order, and nothing else is reported, even where the queue refuses to record one |
| `Batch.Members` | crates/sismatic-intent-relay/src/relay.rs:362-379 | the members in row order, or the first one the registry does not hold |
| `Batch.DispatchBatch` | crates/sismatic-intent-relay/src/relay.rs:339-418 | every row of a claimed batch is reported once on every exit; the exchange takes place exactly if the batch translates and every member is registered, and then with all of them; otherwise every row is reported failed with the translation error or the first missing member's name |
| `Batch.ToMapLast` | crates/sismatic-intent-relay/src/relay.rs:383-405 | pairs collected into a map: its keys are the pairs' keys, and the last pair of a key wins |
| `Batch.FailedExactly` | crates/sismatic-intent-relay/src/relay.rs:395-417 | after a partial failure a row fails exactly if its device is among the failures, with the last reason given for it, and is acknowledged by name and batch otherwise |
| `Batch.SucceededExactly` | crates/sismatic-intent-relay/src/relay.rs:382-394 | after a full run a row succeeds with the last value returned for its device, and fails only if there was none |
| `Fleet.NextInv` | crates/sismatic-server/src/fleet.rs:775-813 | every step of publishers and reconciler but the first read keeps the tasks in step with the registry or a change on its way |
| `Fleet.FirstReadExact` | crates/sismatic-server/src/fleet.rs:782-784 | every later quiet state of every run is in step if and only if, at the first read, both task sets match the registry or a publisher has still to announce |
| `Fleet.RunInv` | crates/sismatic-server/src/fleet.rs:775-813 | so every run after the first read |
| `Fleet.EarlyMutations` | crates/sismatic-server/src/fleet.rs:184-206 | registry changes not announced before the first read are still owed an announcement at it |
| `Fleet.NoLostWakeup` | crates/sismatic-server/src/fleet.rs:775-813 | if nothing was announced before the first read, then in every run, whenever nothing is owed and the reconciler is idle, the relay's running tasks and the keepalive match the registry uuid by uuid, however many changes shared a wake-up; the relay's own pass is a step of the run |
| `Fleet.EarlyAnnouncementMissed` | crates/sismatic-server/src/fleet.rs:782-784 | a change announced before the first read leaves a quiet system out of step |
| `Fleet.WakeRepairs` | crates/sismatic-server/src/fleet.rs:791-796 | after any wake-up, from any state, the next quiet state is in step |
| `Fleet.TaskSurvives` | crates/sismatic-intent-relay/src/relay.rs:151-177 | a device that stays registered under one uuid keeps its very task through every run, whatever else changes |
| `Sweeper.Sweeper.constructor` | crates/sismatic-server/src/lifecycle.rs:308-318 | the sweep loop starts having seen no evictions |
| `Sweeper.Sweeper.Sweep` | crates/sismatic-server/src/lifecycle.rs:397-424 | under a fixed floor or an age, a read is live afterwards exactly if it was and is not stamped before the floor or that age ago; nothing goes if everything is kept, the age reaches before the calendar or the store refuses; the tick says over budget exactly if last reads alone cost more than the budget, else the fresh evictions if any, and leaves what it has seen alone if usage cannot be read |
| `Sweeper.KeepsExactly` | crates/sismatic-server/src/lifecycle.rs:397-400 | a sweep at a cutoff keeps exactly the live reads not stamped before it |
| `Sweeper.DeltasTelescope` | crates/sismatic-server/src/lifecycle.rs:397-424 | per-tick differences add up to the whole count, across ticks that could not read it |
| `Sweeper.ReportedAtMost` | crates/sismatic-server/src/lifecycle.rs:448-458 | reports never exceed the differences, and equal them if and only if no over-budget tick had fresh evictions |
| `Sweeper.ReportsAddUp` | crates/sismatic-server/src/lifecycle.rs:448-458 | the reported evictions equal the counter if and only if no over-budget tick had fresh evictions |
| `Sweeper.HiddenEviction` | crates/sismatic-server/src/lifecycle.rs:448-458 | under a budget below what `latest` costs, a write's eviction is never reported |
| `Sweeper.RunReadingsGrow` | crates/sismatic-server/src/lifecycle.rs:397-424 | readings at successive moments of any run of the store satisfy what the sums above ask |
| `Schema.MergeInto` | crates/sismatic-server/src/schema.rs:254-268 | the in-place merge is the fold of its arms |
| `Schema.AddTypes` | crates/sismatic-server/src/schema.rs:256-261 | types are added once, in order |
| `Schema.Walk.constructor` | crates/sismatic-server/src/schema.rs:110-123 | a walk starts at the root with nothing active |
| `Schema.Walk.Node` | crates/sismatic-server/src/schema.rs:156-185 | terminates on every component graph, follows no active or dangling reference, and restores path and active list |
| `Schema.Walk.SchemaNode` | crates/sismatic-server/src/schema.rs:196-225 | one schema's keys, with path and active list restored |
| `Schema.Walk.Properties` | crates/sismatic-server/src/schema.rs:198-204 | the properties in order, each under its own name |
| `Schema.Walk.Items` | crates/sismatic-server/src/schema.rs:234-246 | the arms of a composite collected apart before they are merged |
| `Schema.NodeOutSays` | crates/sismatic-server/src/schema.rs:156-246 | the listing lists a key, says it accepts a type, or says it is a list, exactly if the schema does; an arm of a composite that only names a key lists none |
| `Schema.RefFollows` | crates/sismatic-server/src/schema.rs:171-185 | a reference is followed to the component named after its last slash, or by the whole of it if it has none; an active or dangling one adds nothing |
| `Schema.LeafTypes` | crates/sismatic-server/src/schema.rs:296-314 | a leaf states exactly the types its schema does, `null` apart |
| `Schema.NodeDescribed` | crates/sismatic-server/src/schema.rs:156-268 | a description listed is never lost |
| `Schema.LeafDescribed` | crates/sismatic-server/src/schema.rs:205-214 | every leaf reached through references and properties is listed with its own description |
| `Schema.MergeSays` | crates/sismatic-server/src/schema.rs:254-268 | merging loses nothing either side says and adds nothing; an arm that only names a key adds none |
| `Schema.MergeAbout` | crates/sismatic-server/src/schema.rs:254-268 | a listed key keeps the description it has, or takes the first an arm gives |
| `Schema.MergeAboutNew` | crates/sismatic-server/src/schema.rs:254-268 | a key first listed by an arm that says anything of it has that arm's description, or the first a later arm gives |
| `Schema.JoinInjective` | crates/sismatic-server/src/schema.rs:271-289 | dot-free paths that join to the same key are the same path |
| `Schema.NodeOutUnder` | crates/sismatic-server/src/schema.rs:156-246 | whatever a walk adds lies at or below the path it stands on |
| `Schema.NodeOutUnique` | crates/sismatic-server/src/schema.rs:156-268 | a walk into a part nothing is listed under adds each path once |
| `Schema.WalkUnique` | crates/sismatic-server/src/schema.rs:107-132 | over every component graph with dot-free names the listing has one entry per path |
| `Schema.DottedNamesCollide` | crates/sismatic-server/src/schema.rs:271-289 | why names are asked to be free of dots: with one, two entries would share a path |

## Left out

- The outbox beyond its retry budget: admission, barriers, retry, cancellation, and what removing a device does to its queue.
- The registry's internals, devices, groups, transports and instruction parsers: the registry is a map from id to uuid, a group run is a function from its members to a result.
- Text libraries: durations, instants and fractional sizes are parameters that read back what they render. An instant whose UTC year does not have four digits falls outside that hypothesis.
- File and environment loading, path anchoring, command-line overrides, export and serialisation; HTTP routes, the user interface and telemetry: easy members or input and output.
- Timers and the sweep loop's pacing.
- Sweeper.Sweeper.Sweep: the clock is a parameter that gives the stamp an age before now, because reading it and subtracting on the calendar is the library's.
- Leap seconds and years outside 0000 to 9999 in timestamps.
- 64-bit wrap-around of the running totals and counters of the store: they are unbounded naturals. The fleet's generation does wrap.
- Struct sizes: the cost estimators use constants, and no law depends on more than their being positive.
- `latest` is one map keyed by device and field, not a map of maps; removal of an emptied device key is modelled for history only.
- The variable names and the final sort of the schema listing, and the difference between one-of, all-of and any-of, which are walked alike.
- Single-device dispatch, recovery after a restart, and the keepalive's own task map, of which only the registry it was last given is kept.
- The reconciler's cancellation and its closed-channel branch.
- MemoryStore.MemoryStore.GetLatest: answers one field; the listing of all fields of a device in name order is not modelled.
