# Verified models of Neksur's protocols

Neksur keeps a lineage and audit graph beside Iceberg catalogs, commits through a policy gateway,
scans new snapshots for sensitive data, and moves tenants between database pools. This project
models the parts of it that hold state or run a protocol, and proves what they keep over every
graph, text, interleaving or run. Databases, catalogs, clocks and key services appear as small
abstract states or as parameters that say what they answer and where they fail; the control flow is
that of the Go code.

Check it with `dafny verify dfyconfig.toml` (Dafny 4.11).

## Files

| file | subject |
|---|---|
| Common.dfy | options, replies, how transactions end, safe Cypher literals, namespace paths, LRU insertion |
| LineageGraph.dfy | walks, trails, the bounded match, one edge more, rings |
| Lineage.dfy | the guarded merge of a lineage edge, the reported cycle path, the sweep |
| LineageRaces.dfy | overlapping lineage transactions and the advisory lock |
| BatchCache.dfy | the data key cache as an object, and as a machine of threads |
| StripTx.dfy | the dollar-quote scanner that removes `BEGIN;` and `COMMIT;` lines |
| DollarQuotes.dfy | where that scanner leaves a quote, beside where Postgres does |
| Timestamps.dfy | the calendar, RFC 3339 text at second and at nanosecond precision, and its byte order |
| Poller.dfy | the poller and the delay that its look-back bridges |
| Pins.dfy | the pin cache and the in-memory pin store |
| GraphPins.dfy | the pin store on the graph, its query and its sweep |
| PinRaces.dfy | readers and writers of the pin cache, interleaved |
| Detection.dfy | emission of detection results, the dispatch pool, and replicas racing for a row |
| Gateway.dfy | the one-table commit handler and the reject-all transaction handler |
| WriteJournal.dfy | snapshots, write events and audit rows under three kinds of writer |
| Tenants.dfy | tenant lifecycle, deletion, and the migration from pool A to pool B |

## What the proofs found

Where the code and what is written about it part, the models follow the code.

- The sweep is described as catching cycles longer than five hops (internal/ingest/cycle_sweep.go:6-9).
  Its query has the same bound of five, so it is silent on every ring of six or more edges
  (`Lineage.SweepSeesRingIffShort`). The write check does better: it excludes cycles of up to six edges,
  and lets a ring through exactly from seven on (`Lineage.RingIsBuiltIffLong`).
- The per-source lock is not what keeps same-source writers safe, and does not help others: two edges
  may be written in overlapping windows exactly when they share their source or share their target
  (`LineageRaces.OverlapIsSafeIff`).
- "Exactly one call per cache miss" (internal/crypto/kms/batch_cache.go:119) fails: `Get` looks up and
  removes in two actions, so a slow removal can take the entry another thread has just stored, and a
  second key is generated (`BatchCacheThreads.LateRemovalCausesSecondGenerate`). Nothing else goes wrong:
  generates that no late removal comes between are an expiry or an eviction apart
  (`BatchCacheThreads.GeneratesBarLateRemoval`).
- RFC3339Nano text is called fixed-width (internal/detect/dispatch/poller.go:163-166). It is not: trailing
  zeros are trimmed, so within a second an instant whose fraction is a proper prefix of another's sorts
  behind it (`Timestamps.NanoOrderWithinSecond`). Commit times are whole milliseconds
  (internal/ingest/snapshot.go:133), so the delay the poller bridges is exactly 29 s and a millisecond,
  not 30 s (`Poller.DelayIsSafeIff`).
- Four things hide an active pin behind a cached list. A pin name issued anew for another table keeps its
  edge to the old table, whose list is not invalidated (`GraphPins.MoveHidesPin`). A reader may add a list
  it read before a writer committed (`PinRaces.LateAddHidesPin`). An upsert whose connection cannot be
  reset after its commit returns an error and skips the invalidation (internal/graph/client.go:245-251,
  internal/coordination/snapshot/pin.go:280-282), and another process invalidates its own cache only
  (`GraphPins.MergeOnlyHidesPin`, `PinRaces.StaleListHidesPin`). In the model of one process's cache beside
  any number of others nothing else does: its lists miss no active pin along a run exactly when each add,
  commit, abandoned invalidation and foreign commit is harmless (`PinRaces.LawHoldsIff`), and when each is
  so is stated exactly, for adds and abandoned invalidations by the pins committed since the list was read
  (`PinRaces.AddIsHarmlessIff`, `PinRaces.AbandonIsHarmlessIff`).
- For the same reason a denial can be on record and still be answered with 503 instead of 403: exactly when
  the audit call errs behind its commit (`Gateway.DeniedIffRecorded`).
- The scanner goes on behind an unequal token inside a quote where Postgres scans again from the token's
  last `$`. A closing token that shares that `$` is swallowed (`DollarQuotes.SwallowedClose`): the two leave
  a quote at one place exactly when an even number of unequal tokens is chained up to the closing one
  (`DollarQuotes.ClosesLikePostgresIff`).
- `findings_count` counts findings; the graph holds one Classification per column and tag. They agree
  exactly when no two findings share both (`DetectionRaces.CountIsNodesIff`).
- The pool remembers locations without their tenant, table or result. Once a replica has begun a scan it
  drops every hit for that location for 24 hours (`DetectionRaces.HitsAreDroppedForADay`,
  `DetectionRaces.ScansAreApart`).
- A hit without a table name, which is every hit of the poller (`Poller.PollerHitsAreNameless`), asks for
  the strategy `regex_skipped_no_table_ref` (cmd/neksur-server/regex_scanner.go:155-163), which the CHECK of
  the table refuses (migrations/postgres/V0062__tenant_detection_runs.sql:29-30). A snapshot with only such
  hits is never recorded (`DetectionRaces.NamelessHitsLeaveNoRun`), and the first of them keeps complete
  hits from being scanned on its replica for a day.
- The one-table handler reads a field of the commit result while logging a failed APPROVED audit
  (internal/gateway/iceberg/handler.go:417-418). With a nil result it panics; the transaction handler
  does not (`Gateway.HandlersAgreeIff`). The polaris, unity, glue and nessie adapters return a result
  whenever they return no error, so only an injected adapter can bring this about.
- A failed schema drop is said to be retried by another `Delete` (internal/tenant/lifecycle.go:78-81).
  The guard refuses it, since `deleted` is not among the states it starts from (`Tenants.DeletedIsFinal`).
  Nor is a schema that is already gone passed over (internal/tenant/lifecycle.go:118-125): the raised
  statement has aborted the transaction, so its commit fails (`Tenants.Repo.Delete`).
- The resume of a migration writes `active` without a guard and without an audit row. It revives a tenant
  that was wound down or deleted meanwhile (`Tenants.ResumeUndoesOnlyItselfIff`,
  `Tenants.ResumeRevivesDeleted`).
- `Delete` drops the schema through the repository's own connection, that of pool A
  (cmd/neksur-cli/tenant_delete.go:88-105). The copy of a migrated tenant in pool B stays
  (`Tenants.PoolBSchemaStays`).

## Model

| member | source | states |
|---|---|---|
| Common.SafeIff | internal/graph/safe_cypher.go:75-98 | the spliced characters are printable ASCII without quotes, backslash, dollar, braces, backquote, semicolon and the other seven that are excluded |
| Common.JoinOneMore | internal/gateway/iceberg/audit.go:342-348 | a namespace with one part more is the joined one, a dot and that part |
| LineageGraph.TrailIffWalk | internal/ingest/cycle.go:56 | within any hop bound, a match without repeated edges exists exactly when a plain walk does |
| LineageGraph.MatchIffReaches | internal/ingest/cycle.go:97-149 | the bounded search of the check query succeeds exactly when a walk of at most that many hops joins the nodes |
| LineageGraph.OutEdgesOfGoalIrrelevant | internal/ingest/cycle_sweep.go:13-17 | edges that leave s never change whether t reaches s within k hops |
| LineageGraph.InEdgesOfStartIrrelevant | internal/ingest/cycle.go:56 | nor do edges that enter t |
| LineageGraph.Rotate | internal/ingest/lineage.go:98-105 | a closed walk can be started at any of its hops, the new edge included |
| LineageGraph.NewCycleNeedsBackPath | internal/ingest/lineage.go:98-105 | a new cycle of up to k+1 edges came with a back path of at most k hops from target to source |
| LineageGraph.EdgeKeepsAcyclicIff | internal/ingest/lineage.go:74-105 | in a graph free of cycles up to k+1, a new edge keeps it so exactly when it is no self-edge and has no back path of k hops |
| LineageGraph.RingHasOneCycleLength | internal/ingest/cycle.go:42 | a ring of n edges is seen by a bound k exactly when k reaches n |
| LineageGraph.ChainReachesOnlyForward | internal/ingest/cycle.go:56 | in a chain the only match from i to j takes j - i hops forward |
| Lineage.FetchCyclePath | internal/ingest/cycle.go:165-205 | the path starts and ends at the target, ends in source and target, has at most 8 entries; all hops but the last are real edges on early return; it is early if nodes have one successor, the queries work and the check fired |
| Lineage.Service.MergeLineageEdge | internal/ingest/lineage.go:52-130 | which of the five outcomes a call has, and its whole new state, spelled out: creation time and run id of an edge are kept, its heartbeat is dated anew, a new edge has both from the call, nothing else changes, and without a commit nothing at all |
| Lineage.MergeKeepsAcyclic | internal/ingest/lineage.go:74-128 | one call, failing anywhere or not, keeps the graph free of cycles of up to six edges |
| Lineage.SerialRunsKeepAcyclic | internal/ingest/lineage.go:52-130 | so does every serial run of calls |
| Lineage.RunsKeepCreation | internal/ingest/lineage.go:26-36 | in every run no edge is lost, its creation time and run id stay, and its heartbeat is that of some call for it, if it has moved |
| Lineage.RingIsBuiltIffLong | internal/ingest/cycle.go:42-56 | the calls that build a ring are all accepted exactly when it has at least seven edges |
| Lineage.RunCycleSweepOnce | internal/ingest/cycle_sweep.go:138-183 | fails exactly on a broken row stream; reports only closed walks' anchors, each with a path that starts and ends there, and all of them below the row limit when every row scans |
| Lineage.SweepSilentIff | internal/ingest/cycle_sweep.go:134 | the sweep finds nothing exactly on graphs without cycles of up to five edges |
| Lineage.SweepSeesRingIffShort | internal/ingest/cycle_sweep.go:6-9 | a ring shows in the sweep exactly when it has at most five edges |
| LineageRaces.CommitKeepsVerdict | internal/ingest/lineage.go:103-128 | a commit leaves the verdict on every edge that shares its source or target |
| LineageRaces.StepKeepsSound | internal/ingest/lineage.go:84-129 | while open windows share an end, each lock, check, abort or commit step keeps the graph clean and pending verdicts true |
| LineageRaces.SharedEndRunsKeepAcyclic | internal/ingest/lineage.go:84-129 | runs of any number of transactions, locked or not, whose overlapping windows share an end never build a cycle of up to six edges |
| LineageRaces.LockExcludesSameKey | internal/ingest/lineage.go:92-96 | in every run no two transactions with one lock key hold the lock at once |
| LineageRaces.OverlapIsSafeIff | internal/ingest/cycle_sweep.go:13-17 | two edges are safe to write in overlapping windows on every graph exactly when they share source or target |
| LineageRaces.LockedWritersCloseCycle | internal/ingest/cycle_sweep.go:13-17 | any two edges without a common end have a locked run from a clean graph to a cycle of at most four edges |
| LineageRaces.TwoWritersCloseTwoCycle | internal/ingest/cycle_sweep.go:13-17 | a to b and b to a, written together into an empty graph, end as a 2-cycle |
| LineageRaces.AloneIsServiceCall | internal/ingest/lineage.go:84-129 | the steps of one undisturbed transaction commit what one service call does |
| BatchCache.NewBatchCache | internal/crypto/kms/batch_cache.go:70-76 | refuses exactly the sizes the LRU refuses, else an empty cache |
| BatchCache.BatchCache.Get | internal/crypto/kms/batch_cache.go:81-97 | hits exactly up to and including the moment the entry expires; an expired entry is gone afterwards |
| BatchCache.BatchCache.Set | internal/crypto/kms/batch_cache.go:102-114 | non-empty bytes are stored, with at most one eviction, and are usable exactly up to now plus the time to live |
| BatchCache.BatchCache.GetOrGenerate | internal/crypto/kms/batch_cache.go:128-162 | one call: no generate when either look-up hits, exactly one otherwise, and what the cache holds after each of these |
| BatchCacheThreads.RunKeepsInv | internal/crypto/kms/batch_cache.go:81-162 | over any number of threads, ticks and evictions: bounded size, one lock owner, provenance of all bytes, and an account of every live generate |
| BatchCacheThreads.AtMostOneGenerating | internal/crypto/kms/batch_cache.go:137-162 | never two threads inside the generate function |
| BatchCacheThreads.GeneratesAreSeparated | internal/crypto/kms/batch_cache.go:118-124 | two non-empty generates for one key always have an expiry, eviction or removal of its entry between them |
| BatchCacheThreads.HandedKeysAreOwn | internal/crypto/kms/batch_cache.go:40-44 | every key handed out was generated or supplied for the same tenant, column and batch |
| BatchCacheThreads.HitsAreUnexpired | internal/crypto/kms/batch_cache.go:81-114 | in every run a look-up hands out what it found exactly while that has not expired, and no entry outlives the time to live |
| BatchCacheThreads.FreshDropIffReplaced | internal/crypto/kms/batch_cache.go:81-97 | a removal takes a good entry exactly when that entry replaced the expired one it saw |
| BatchCacheThreads.GeneratesBarLateRemoval | internal/crypto/kms/batch_cache.go:118-124 | two generates for a key without a late removal between them are an expiry or an eviction of its entry apart |
| BatchCacheThreads.GeneratesAreCounted | internal/crypto/kms/batch_cache.go:118-124 | generates for a key are at most one more than its expiries, evictions and late removals together |
| BatchCacheThreads.LateRemovalCausesSecondGenerate | internal/crypto/kms/batch_cache.go:118-124 | from every state with an expired entry, a run with two generates at one instant and a good entry removed between them |
| StripTx.TrackLine | internal/migrate/graph.go:239-270 | the inner loops move depth and tag as one scan of the line does |
| StripTx.StripWrappingTx | internal/migrate/graph.go:225-287 | the method writes the lines of the specification, one newline after each |
| StripTx.SplitUnlines | internal/migrate/graph.go:231-284 | writing lines and splitting them again gives them back and one empty line |
| StripTx.UnlinesSplit | internal/migrate/graph.go:231-284 | splitting and writing again adds one newline and loses nothing |
| StripTx.MarkersAreTheWords | internal/migrate/graph.go:276-282 | the two markers are the bytes of the words `BEGIN;` and `COMMIT;` |
| StripTx.TagCharsAre | internal/migrate/graph.go:289-299 | tag characters are letters, digits and the underscore; lines end with a newline and tags with a dollar sign |
| StripTx.SpaceRuneIff | internal/migrate/graph.go:277 | what is trimmed is exactly the UTF-8 of a code point with the White_Space property of Unicode |
| StripTx.TrackerIsOneScan | internal/migrate/graph.go:225-287 | at the start of every line, and at the end, the line tracker has the quote state and open tag of one scan over the whole text |
| StripTx.MarkerIff | internal/migrate/graph.go:276-282 | a marker is one of the two words with nothing but Unicode white space around it |
| StripTx.StrippingKeepsStates | internal/migrate/graph.go:225-287 | blanking lines leaves the quote state before every line unchanged |
| StripTx.StripBlanksExactlyTopLevelMarkers | internal/migrate/graph.go:218-287 | lines inside a quote come through byte for byte; a line changes exactly if it is a marker at top level, and is then empty; states are kept |
| StripTx.SecondPassOnlyAddsNewline | internal/migrate/graph.go:225-287 | a second pass adds one newline and nothing else |
| DollarQuotes.PostgresClosesAtFirst | internal/migrate/graph.go:218-224 | scanning again from the last dollar sign closes a quote at the first place where its tag stands |
| DollarQuotes.VisitsIffEven | internal/migrate/graph.go:240-269 | the inner loop looks at a dollar sign exactly if an even number of tokens sharing their dollar signs is chained up to it |
| DollarQuotes.ClosesLikePostgresIff | internal/migrate/graph.go:249-267 | the tracker leaves a quote where Postgres does exactly when that number is even for the closing token, and never leaves one that Postgres does not |
| DollarQuotes.ScanBehindClose | internal/migrate/graph.go:254-259 | behind the place where the tracker closes, its scan is one from outside |
| DollarQuotes.StateIsQuote | internal/migrate/graph.go:238-270 | the state at any place is the quote that the tokens before it open and close in turn: the next token opens one, which lasts up to the place where its tag is met again |
| DollarQuotes.OutsideBeforeTokens | internal/migrate/graph.go:239-270 | before its first token a text is outside every quote |
| DollarQuotes.InsideFirstQuote | internal/migrate/graph.go:249-260 | behind its first token a text is inside the quote of that tag up to the first visited place where the tag stands |
| DollarQuotes.QuotedLineIsKept | internal/migrate/graph.go:272-284 | a line that begins between the first token and its closing one comes through byte for byte, marker or not |
| DollarQuotes.UnquotedMarkerIsBlanked | internal/migrate/graph.go:276-282 | a marker line before the first token becomes empty |
| DollarQuotes.LineIsBlankedIff | internal/migrate/graph.go:231-286 | any line becomes empty exactly if it is a marker and no quote is open where it begins, by the tokens before it, and is kept otherwise |
| DollarQuotes.AgreeWithoutSharedDollar | internal/migrate/graph.go:261-265 | on texts in which no dollar sign ends one token and begins another the two are in one state everywhere |
| DollarQuotes.SwallowedClose | internal/migrate/graph.go:261-267 | for any two tags the tracker stays inside a quote whose closing token follows the other on a shared dollar sign |
| StripTx.UntouchedIff | internal/migrate/graph.go:225-287 | nothing but the final newline is added exactly when no marker stands at top level |
| Timestamps.DateOf | internal/coordination/snapshot/pin.go:337 | every day of the years 0 to 9999 has a valid date that counts back to it |
| Timestamps.DateOfDayNumber | internal/coordination/snapshot/pin.go:337 | the day number of every valid date has that date |
| Timestamps.HeadOrder | internal/coordination/snapshot/pin.go:297-302 | the text up to the second is ordered, and told apart, like whole seconds |
| Timestamps.Rfc3339Shows | internal/coordination/snapshot/pin.go:239-240 | the text has twenty characters and shows year, month, day, hour, minute and second of the instant at the places of RFC 3339, section 5.6 |
| Timestamps.Rfc3339Order | internal/coordination/snapshot/pin.go:333-336 | byte order of second-precision text is the order of whole seconds |
| Timestamps.NanoText | internal/detect/dispatch/poller.go:163-166 | the nanosecond text is the other one with a dot and the nine digits of the fraction less trailing zeros before its `Z`, or that text itself on a whole second |
| Timestamps.NanoOrderAcrossSeconds | internal/detect/dispatch/poller.go:163-166 | nanosecond text is ordered like time when whole seconds differ |
| Timestamps.NanoOrderWithinSecond | internal/detect/dispatch/poller.go:163-166 | within a second it is, unless the earlier fraction is a proper prefix of the later one |
| Poller.FreshSnapshots | internal/detect/dispatch/poller.go:167-221 | one hit per non-empty location of the answer, with source `poller` and no table name, in order; a failed query gives none |
| Poller.PollOnce | internal/detect/dispatch/poller.go:98-131 | pushes the hits of all tenants in order, skipping failed queries; a cancelled cycle pushes a prefix of them |
| Poller.PollerHitsAreNameless | internal/detect/dispatch/poller.go:203-210 | every hit of a poll has a location and an active tenant, and no table name |
| Poller.VisibleSnapshotIsPushed | internal/detect/dispatch/poller.go:38-131 | with complete polls at most 30 s apart that never meet the limit, a snapshot visible within 29 s and 1 ms of its commit time is pushed |
| Poller.GridNeverCovers | internal/detect/dispatch/poller.go:38-47 | for every longer delay a commit time in the last millisecond of its second is covered by no later poll of a 30 s grid |
| Poller.DelayIsSafeIff | internal/detect/dispatch/poller.go:38-47 | for commit times in whole milliseconds the delay is bridged in all paced runs exactly up to 29 s and 1 ms |
| Pins.NewPinLRU | internal/coordination/snapshot/pin_lru.go:61-67 | refuses exactly the sizes the LRU refuses, else an empty cache of that size |
| Pins.CachedIsLatest | internal/coordination/snapshot/pin_lru.go:71-85 | over every run of adds, invalidations and evictions, what a look-up finds is the value of the latest add of its key, with no invalidation since |
| Pins.PinLRU.Add | internal/coordination/snapshot/pin_lru.go:77-79 | stores the list; a full cache gives up one other key and says so |
| Pins.PinLRU.Invalidate | internal/coordination/snapshot/pin_lru.go:83-85 | removes exactly this key |
| MemPins.PrefixNamesTenant | internal/coordination/snapshot/pin.go:136-150 | a store key has a tenant's prefix exactly if it is that tenant's |
| MemPins.TenantOfStoreKey | internal/coordination/snapshot/pin_sweep.go:195-198 | the part before the first slash of a store key is its tenant |
| MemPins.PinStore.constructor | internal/coordination/snapshot/pin.go:171-173 | an empty store over the cache |
| MemPins.PinStore.UpsertSnapshotPin | internal/coordination/snapshot/pin.go:212-229 | the pin replaces its namesake under the tenant's key and the list of its table leaves the cache; without a tenant nothing changes |
| MemPins.PinStore.ActivePinsForTable | internal/coordination/snapshot/pin.go:303-326 | a hit is returned as it is; a miss lists and caches pins of the table that have not expired, and all of them that the tenant issued |
| MemPins.PinStore.CollectExpired | internal/coordination/snapshot/pin_sweep.go:186-191 | collects exactly the keys of pins that have expired |
| MemPins.PinStore.DeleteExpired | internal/coordination/snapshot/pin_sweep.go:193-205 | removes one pin and the cached list of its table |
| MemPins.PinStore.DeleteAll | internal/coordination/snapshot/pin_sweep.go:193-205 | removes all collected pins and the cached lists of their tables, in any order |
| MemPins.PinStore.SweepMem | internal/coordination/snapshot/pin_sweep.go:180-210 | leaves exactly the unexpired pins as they are, reports how many went, and leaves no cached list of a table with a swept pin |
| MemPins.UpsertIsActiveIff | internal/coordination/snapshot/pin.go:140-159 | an upserted pin is active for its table exactly until its expiry |
| MemPins.RunKeepsNoneMissing | internal/coordination/snapshot/pin.go:140-159 | over every run of upserts, queries, sweeps, evictions and ticks, no cached list lacks a pin active now |
| MemPins.QueriesMissNothing | internal/coordination/snapshot/pin.go:303-326 | so every query of such a run returns at least all active pins |
| GraphPins.PinStore.constructor | internal/coordination/snapshot/pin.go:165-167 | a store over a graph and a cache |
| GraphPins.PinStore.UpsertSnapshotPin | internal/coordination/snapshot/pin.go:212-292 | the node with each of the pin's fields, and the edge if the table is there, merged in one transaction, then the table's list invalidated; refusals, panics on unsafe literals and rolled-back transactions change nothing; an error behind the commit leaves the merges without the invalidation |
| GraphPins.PinStore.ActivePinsForTable | internal/coordination/snapshot/pin.go:303-389 | a hit is returned without a look at expiry; a miss caches what the query answers; failures cache nothing |
| GraphPins.DetachDelete | internal/coordination/snapshot/pin_sweep.go:224-229 | deleting the matching nodes one by one with their edges leaves the graph of the specification and counts them |
| GraphPins.PinStore.SweepTenant | internal/coordination/snapshot/pin_sweep.go:218-258 | gone are exactly the tenant's nodes whose expiry second has passed, and their edges; all else is as it was; the count is what the nodes became fewer; a transaction that does not commit changes nothing |
| GraphPins.ActiveIff | internal/coordination/snapshot/pin.go:341-377 | the rows of a query are, field by field, the tenant's nodes that pin the table and whose expiry second is still to come |
| GraphPins.UpsertIsActive | internal/coordination/snapshot/pin.go:259-279 | after an upsert for an existing table a query finds the pin as issued, as the one row of its name, until its expiry second, and none of that name then |
| GraphPins.UpsertThenQuery | internal/coordination/snapshot/pin.go:259-388 | so the next query of the table, which misses the cache, lists the pin as issued |
| GraphPins.SweepAndQueryPartition | internal/coordination/snapshot/pin_sweep.go:218-229 | what is swept is never active again; a pin is neither active nor swept exactly during its expiry second |
| GraphPins.SweepIsInvisible | internal/coordination/snapshot/pin_sweep.go:218-229 | a sweep changes no query of that instant or later, of any tenant |
| GraphPins.LaterIsFewer | internal/coordination/snapshot/pin.go:337-348 | on a fixed graph the active pins only become fewer |
| GraphPins.UpsertKeepsLawIff | internal/coordination/snapshot/pin.go:212-292 | an upsert keeps the law that no cached list lacks an active pin exactly when no other table of the pin name has a cached list without the pin as issued |
| GraphPins.MergeOnlyKeepsLawIff | internal/coordination/snapshot/pin.go:280-282 | a commit without invalidation keeps the law exactly when every cached list of a table the pin then points to has it as issued |
| GraphPins.LawHoldsIff | internal/coordination/snapshot/pin.go:212-389 | the law holds at every point of a sequential run exactly when each upsert in it, and each commit without invalidation, is harmless in these senses |
| GraphPins.RunKeepsLaw | internal/coordination/snapshot/pin.go:212-389 | so it holds along every sequential run that moves no pin name and commits without invalidation only for tables that are not cached |
| GraphPins.QueriesMissNothing | internal/coordination/snapshot/pin.go:303-389 | no query of such a run misses an active pin |
| GraphPins.MergeOnlyHidesPin | internal/graph/client.go:245-251 | a run in which an upsert that errs behind its commit, or of another process, hides its own pin |
| GraphPins.MoveHidesPin | internal/coordination/snapshot/pin.go:245-290 | a run in which a moved pin name is active but hidden |
| PinRaces.AddKeepsLawIff | internal/coordination/snapshot/pin.go:387 | an add keeps the law exactly when a writer of the table is still to invalidate or the list is complete now |
| PinRaces.CommitKeepsLawIff | internal/coordination/snapshot/pin.go:245-279 | a commit keeps it exactly when no settled list of another table of its pin name lacks the pin |
| PinRaces.AbandonKeepsLawIff | internal/coordination/snapshot/pin.go:280-282 | a writer that commits and returns without invalidating keeps it exactly when another writer of the table is pending or its list is not cached or complete |
| PinRaces.ForeignKeepsLawIff | internal/coordination/snapshot/pin.go:113-125 | a commit of another process keeps it exactly when no settled list of the pin's tables lacks the pin |
| PinRaces.QuietStepKeepsLaw | internal/coordination/snapshot/pin.go:284-316 | reads, invalidations, sweeps, evictions, new tables and ticks always keep it |
| PinRaces.LawHoldsIff | internal/coordination/snapshot/pin.go:212-389 | for readers and writers interleaved in any way, with errors behind commits and other processes, the law holds at every point of a run exactly when every such step in it is harmless |
| PinRaces.AbandonIsHarmlessIff | internal/coordination/snapshot/pin.go:280-290 | giving up an invalidation is harmless exactly when another is pending, the list is not cached, or it has every pin of the table committed since it was read and still active |
| PinRaces.AddIsHarmlessIff | internal/coordination/snapshot/pin.go:318-389 | an add is harmless exactly when an invalidation is pending or every pin of the table committed since its read and still active is in its list |
| PinRaces.UndisturbedRunsKeepLaw | internal/coordination/snapshot/pin.go:284-389 | with reads and adds, commits and invalidations as separate steps, the law holds when no pin of a table is committed between a reader's read and its add, no name moves, no invalidation is given up, and other processes commit only for tables not cached here |
| PinRaces.UndisturbedReadersMissNothing | internal/coordination/snapshot/pin.go:318-389 | in such runs every cached list without a pending writer has all active pins |
| PinRaces.StaleListHidesPin | internal/graph/client.go:245-251 | a run without a move or a late add in which a given-up invalidation, and one in which another process, hides an active pin |
| PinRaces.LateAddHidesPin | internal/coordination/snapshot/pin.go:284-389 | without the condition, a run that leaves an active pin hidden after its writer is done |
| Detection.Database.MergeFinding | internal/detect/regex/emit.go:119-147 | the five merges of one finding add exactly its column, tag and classification and the two edges between them and the run |
| Detection.Database.EmitDetectionResults | internal/detect/regex/emit.go:170-351 | on success a finished regex row with the number of findings, and in the graph exactly what belongs to them; invalid exactly for an empty or unsafe text; the row of a peer exactly when it is there; nothing on a duplicate or on any failure before the end of the commit, everything when the call errs behind it |
| Detection.ItemsBelong | internal/detect/regex/emit.go:99-147 | kind by kind and field by field, which nodes and edges an emission writes |
| Detection.Pool.constructor | internal/detect/dispatch/pool.go:129-140 | nothing seen yet |
| Detection.Pool.ProcessHit | internal/detect/dispatch/pool.go:227-246 | the first hit of a location is scanned and remembered, all others dropped |
| Detection.Pool.EvictSeen | internal/detect/dispatch/pool.go:198-221 | forgets exactly the locations older than 24 hours, counts them, and keeps the times of the others |
| DetectionRaces.AsManyKeysIffDistinct | internal/detect/regex/emit.go:138 | merging folds findings; none is folded exactly when column and tag never repeat |
| DetectionRaces.RunKeepsInv | internal/detect/regex/emit.go:226-351 | the invariant behind the next four over every interleaving |
| DetectionRaces.OneRunPerLocation | internal/detect/regex/emit.go:226-351 | per tenant and location at most one committed run, with the count of its findings and exactly its items under its id; every committed run has its row |
| DetectionRaces.OnlyCommittedIsThere | internal/detect/regex/emit.go:226-351 | a tenant's rows are those of its committed runs and its graph is exactly the items of their emissions, those without a run id included |
| DetectionRaces.LosersLeaveNothing | internal/detect/regex/emit.go:226-248 | a run id that lost the race or was rolled back is in no row and on no item, and every item there is of some committed run |
| DetectionRaces.ScansAreApart | internal/detect/dispatch/pool.go:60 | scans of one location on one replica begin more than 24 hours apart |
| DetectionRaces.CountIsNodesIff | internal/detect/regex/emit.go:138-147 | the stored count is the number of Classification nodes exactly when no two findings share column and tag |
| DetectionRaces.HitsAreDroppedForADay | internal/detect/dispatch/pool.go:233-246 | once a replica has begun a scan, it drops every hit for the location for 24 hours, whatever its tenant or table and however the scan ended |
| DetectionRaces.NamelessHitsLeaveNoRun | cmd/neksur-server/regex_scanner.go:115-169 | in every run in which all hits for a tenant's snapshot lack a table name, it gets no row and no edge to a detection run |
| DetectionRaces.RunsAreScans | migrations/postgres/V0062__tenant_detection_runs.sql:29-30 | only hits that name their table are being recorded, and every committed run is a regex scan |
| Gateway.EvaluatePolicies | internal/gateway/iceberg/handler.go:347-399 | the policy loop: first deny or error decides, a denial that cannot be audited is 503 |
| Gateway.CommitHandler | internal/gateway/iceberg/handler.go:301-440 | calls, counters and answer of the one-table handler for every outcome of its dependencies |
| Gateway.GateTable | internal/gateway/iceberg/multi_table.go:167-255 | the gate of one table |
| Gateway.IdentCharIff | internal/gateway/iceberg/handler.go:102-107 | names consist of the Cypher-safe letters and digits, `_` and `-`, and are not empty |
| Gateway.ValidRefsAreSpliceable | internal/gateway/iceberg/audit.go:361-363 | a table that gets past the name check cannot make its audit panic by its name or namespace |
| Gateway.MultiTableCommitHandler | internal/gateway/iceberg/multi_table.go:158-317 | calls, counters and answer of the transaction handler; 400 for an empty request; with 200 the results are those of the catalog, in order |
| Gateway.GateStatus | internal/gateway/iceberg/multi_table.go:167-255 | a table passes exactly when its names are valid, it loads and every policy allows |
| Gateway.RejectAll | internal/gateway/iceberg/multi_table.go:158-255 | if any table fails its gate, nothing is committed, approved or ingested |
| Gateway.FirstRefusalDecides | internal/gateway/iceberg/multi_table.go:167-255 | answer and counters are those of the first table that fails |
| Gateway.CommitsFollowRequestOrder | internal/gateway/iceberg/multi_table.go:260-311 | commits are a prefix of the request order up to the first failure; each accepted table gets exactly one APPROVED attempt; 200 or the failure's status |
| Gateway.IngestsFollowCommits | internal/gateway/iceberg/multi_table.go:289-311 | once every table passes, the ingest calls are exactly those for the snapshots that the catalog named, with a location, for the tables that were done, in request order, each right behind the accepted commit and the APPROVED attempt of its table |
| Gateway.SingleIngests | internal/gateway/iceberg/handler.go:402-433 | the one-table handler ingests exactly the snapshot named for a commit whose attempt returned, as its last call, and nothing in every other case |
| Gateway.OkIff | internal/gateway/iceberg/multi_table.go:158-317 | 200 exactly when there is a table, all pass, all are committed and no audit panics |
| Gateway.DeniedIffRecorded | internal/gateway/iceberg/multi_table.go:221-255 | at most one REJECTED attempt, whose outcome decides status and counters: persisted is 403 and one reason, an error 503 and two, a panic one; 403 exactly when it persisted its record and said so; a persisted record goes with another status, 503, exactly when the audit call erred behind its commit |
| Gateway.FirstDenialDecides | internal/gateway/iceberg/multi_table.go:167-255 | a REJECTED attempt is made exactly when the first table that does not pass is denied by its policies, and the status is 403, 503 or a panic as that attempt persists, errs or panics |
| Gateway.SingleDeniedIffRecorded | internal/gateway/iceberg/handler.go:325-399 | the same for one table, except the partition spec mismatch, which makes no attempt |
| Gateway.HandlersAgreeIff | internal/gateway/iceberg/multi_table.go:158-317 | a one-table transaction equals the one-table handler in calls, counters and answer exactly unless the coordinator refuses or the nil result of an unaudited commit is read |
| WriteJournal.Journal.MergeSnapshot | internal/ingest/snapshot.go:113-164 | outcome by outcome; one merged vertex when the transaction commits, also if the call errs behind it, nothing otherwise |
| WriteJournal.Journal.EmitWriteEvent | internal/gateway/iceberg/audit.go:159-318 | all merges and the audit row, or nothing, with every field of the event, the edges and the row taken from the emission; what is there under a key is kept; an error may also come behind the commit; it panics exactly on unsafe literals unless a failing statement comes first |
| WriteJournal.SnapshotsTellFirstAndLast | internal/ingest/snapshot.go:60-76 | under any interleaving one vertex per tenant and location that was named; ids, committed_at and operation of the first ingest, last_seen_at of the last |
| WriteJournal.IntentsAreDated | internal/gateway/iceberg/audit.go:109-113 | one INTENDED_WRITE edge per principal and table, with the times of the first and last attempt |
| WriteJournal.FirstsKeepFirst | internal/gateway/iceberg/audit.go:82 | coalescing merges leave one entry per key, that of its first occurrence; as many as were merged exactly when keys are distinct |
| WriteJournal.RunMergesLogs | internal/gateway/iceberg/audit.go:205-310 | the events and writes of a run are its emissions merged, with an audit row for each |
| WriteJournal.LogsTellEmissions | internal/gateway/iceberg/audit.go:205-310 | in every run the audit log, the events and the attempts tell the emissions in commit order, field by field, the decision above all |
| WriteJournal.EventPerAuditRowIff | internal/gateway/iceberg/audit.go:188-310 | as many write events as audit rows exactly when no tenant drew a commit id twice |
| WriteJournal.ActualWritesAreApproved | internal/gateway/iceberg/audit.go:262-283 | every ACTUAL_WRITE edge joins the location and the table of an APPROVED emission, whose APPROVED row is in the audit log; its event is there exactly when the first emission under its commit id wrote the same event, so always unless an id was drawn twice |
| WriteJournal.EventIsKeptIff | internal/gateway/iceberg/audit.go:82 | the event of any emission is in the graph exactly when the first emission under its commit id wrote the same |
| WriteJournal.ApprovedCommitsAreWritten | internal/gateway/iceberg/audit.go:262-283 | every approved commit with a location has its one edge, dated by the first such emission |
| WriteJournal.ReusedIdHidesApproval | internal/gateway/iceberg/audit.go:82 | such a commit id, which random UUIDs are assumed not to repeat, leaves an approved write beside a lone REJECTED event |
| Tenants.ValidateRowCounts | internal/tenant/pool_b_migrate.go:301-346 | succeeds exactly when both sides answer, there is a table and every listed count agrees, and returns those counts; otherwise names the first table at fault |
| Tenants.Repo.TransitionLifecycle | internal/tenant/lifecycle.go:135-188 | state and audit row together from an admitted state, with pool, DSN and schemas as they were, or nothing |
| Tenants.Repo.Suspend | internal/tenant/lifecycle.go:48-50 | succeeds, when the database works, exactly from active |
| Tenants.Repo.WindDown | internal/tenant/lifecycle.go:59-61 | exactly from active or suspended |
| Tenants.Repo.Delete | internal/tenant/lifecycle.go:85-131 | needs confirmation; the state goes first and stays deleted when the drop or its commit fails, as it also does when the graph was already gone |
| Tenants.Repo.SetLifecycleState | internal/tenant/repo.go:129-144 | any known state, from any state, without an audit row |
| Tenants.Repo.UpdatePoolAndDSN | internal/tenant/pool_b_migrate.go:436-455 | pool and DSN of an existing tenant, for pools A and B only; its state stays |
| Tenants.Repo.MigratePoolAToB | internal/tenant/pool_b_migrate.go:138-209 | pool B and its DSN exactly behind a whole copy with matching counts and a working flip, the old ones otherwise; suspended after every failure between suspension and resume, active afterwards; no other tenant changes; exactly which audit rows and schemas are added; a schema already in pool B stops it |
| Tenants.Repo.CopyToPoolB | internal/tenant/pool_b_migrate.go:159-177 | dump, restore and comparison in order: which step failed, what is then in pool B, and that success means equal counts |
| Tenants.Repo.SwitchToPoolB | internal/tenant/pool_b_migrate.go:177-191 | flip, resume and audit row in order: which step failed and what is then written |
| Tenants.PostgresDsnIff | internal/tenant/pool_b_migrate.go:223-231 | a DSN is accepted exactly if one of the two schemes is followed by anything |
| Tenants.ContainsIff | internal/tenant/lifecycle.go:193-201 | a message contains a text exactly if it is that text between two others |
| Tenants.AdmitsIffForward | internal/tenant/lifecycle.go:48-101 | a guarded transition is admitted exactly when it moves the tenant forward |
| Tenants.MovesAreBounded | internal/tenant/lifecycle.go:48-101 | a run writes no more audit rows for a tenant than the steps it went forward, at most three |
| Tenants.RunsMoveForward | internal/tenant/lifecycle.go:48-188 | between any two points of any interleaving every tenant only moves forward |
| Tenants.DeletedIsFinal | internal/tenant/lifecycle.go:78-101 | deleted is final, and no later delete is admitted |
| Tenants.AuditRebuildsStates | internal/tenant/lifecycle.go:166-181 | replaying the audit rows in order rebuilds the state of every tenant |
| Tenants.StaysSuspendedIff | internal/tenant/lifecycle.go:48-61 | a suspended tenant stays so exactly when nobody asks to wind it down or delete it |
| Tenants.ResumeUndoesOnlyItselfIff | internal/tenant/pool_b_migrate.go:158-195 | a migration's resume takes back only its own suspension exactly when no wind-down or delete comes between; the audit log tells the overwritten state |
| Tenants.ResumeRevivesDeleted | internal/tenant/repo.go:129-144 | a tenant deleted between the counts and the resume of its migration is active afterwards and routed to its copy in pool B, while pool A has no schema of it and the audit log ends in its deletion |
| Tenants.PoolBSchemaStays | internal/tenant/lifecycle.go:103-129 | no call on tenants removes a schema from pool B, the delete of a migrated tenant included |

## Left out

- Lineage.Service.MergeLineageEdge: edges are keyed by their endpoints and ids name one node each; parallel edges and duplicate nodes that AGE may create under concurrent merges are not modelled.
- Lineage.FetchCyclePath: which successor a one-hop query returns among several is left open, as it is in the query.
- LineageRaces.LockExcludesSameKey: the lock function is an arbitrary hash; which sources collide in Postgres' hash is not modelled.
- BatchCache.BatchCache.GetOrGenerate: the bytes are values, so the copies the code takes do not appear; what other callers do while the mutex is awaited is a parameter, and the threads' own interleaving is BatchCacheThreads.
- BatchCacheThreads.RunKeepsInv: an LRU action is atomic and evicts an arbitrary key; recency order is not modelled.
- Poller.VisibleSnapshotIsPushed: assumes that each poll completes within its instant and that graph text is compared byte by byte.
- Poller.PollOnce: the channel is a sequence; a full channel shows only as cancellation.
- Timestamps.Rfc3339Order: covers the years 0 to 9999, where the text has a fixed layout; other years are not part of this model.
- GraphPins.PinStore.ActivePinsForTable: the query's rows come in any order and times are listed as their text; parsing them back is not modelled.
- PinRaces.LawHoldsIff: the advisory lock of the upsert guards the compaction coordinator, which is not part of this model.
- DetectionRaces.NamelessHitsLeaveNoRun: the loading of a table, its credentials and the classifier are an answer of the step; namespaces of hits are not modelled.
- DetectionRaces.OneRunPerLocation: items are known by their keys; confidence values and last-seen times are not modelled, and run ids are fresh when drawn.
- Gateway.CommitHandler: begins behind request decoding, authentication, credential lookup and adapter construction; policy evaluation, the catalog and the audit writer are answers in a script.
- Gateway.MultiTableCommitHandler: same; the effect of the ingest call is that of WriteJournal, and its failure is only logged.
- WriteJournal.SnapshotsTellFirstAndLast: merges are atomic and row-level security confines matches to the tenant; duplicate vertices of concurrent merges are not modelled.
- WriteJournal.Journal.EmitWriteEvent: a panic abandons the open transaction; how its connection is cleaned up is not modelled, nor are the email and roles in the audit payload, the time the database gives the row, and the constant policy version.
- Tenants.ResumeUndoesOnlyItselfIff: one migration of the tenant at a time; a manual state write by an operator in between is not modelled.
- Tenants.Repo.TransitionLifecycle: a commit whose acknowledgement is lost counts as failed here; the repository has no later step that could err behind it.
- DollarQuotes.ClosesLikePostgresIff: compares where quotes close; that Postgres opens none at a tag beginning with a digit, nor inside identifiers, strings and comments, and admits other letters in tags, is not modelled.
- Tenants.Repo.Delete: that a commit after a failed statement is an error is the behaviour of Postgres and of its driver, which are not part of this model otherwise.
- Tenants.Repo.MigratePoolAToB: the dump file, the durations and the redacted DSN in the audit payload are not modelled.
- HTTP, JSON, metrics other than the rejection counters, logging, and the assembly of Cypher text.
- CEL evaluation, the policy compiler and the SQL dialect splicers, which are oracles here.
- The Iceberg adapters and the WorkOS, Stripe, Slack, PagerDuty, KMS and SQS clients: foreign calls.
- The credential cache's half-life check, listener backoff, sampling buckets, the regex classifier, label lists and configuration validators: true but easy.
- RecordQueryRead: a single edge merge.
- Schema migration runs, command line tools and terraform.
