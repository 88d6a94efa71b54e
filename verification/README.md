# Durable-execution runtime: a verified model

This project models the algorithms and protocols at the centre of the Tape durable-execution
runtime and proves what they keep over every input, every run and every interleaving.
`dafny verify dfyconfig.toml` checks all of it.

| files | what they model |
|---|---|
| `Linearizability.dfy`, `Lease.dfy` | the Wing-Gong linearizability checker, generic over the sequential model, and the obligation lease it is run against |
| `MatcherModel.dfy`, `Matcher.dfy`, `MatcherRuns.dfy`, `MatcherProgress.dfy`, `MatcherFolding.dfy` | the in-server matcher: one pass as it runs, runs with crashes and refused writes, progress and starvation, debouncing |
| `Ledger.dfy`, `Compaction.dfy`, `LedgerRuns.dfy` | the embedded effect ledger: snapshot, lossy compaction, and the lookup that must not notice |
| `Segments.dfy`, `Decimals.dfy`, `Patterns.dfy`, `Subjects.dfy` | subject escaping and derivation, the exact pattern matcher, the SQL LIKE prefilter, the patterns the Go SDK builds |
| `Outbox.dfy` | competing outbox dispatchers, leases, ambiguous outcomes and retries |
| `CallbackJournal.dfy`, `CallbackLookup.dfy` | the agent-framework plugin that journals tool calls; its lookup without a call id |
| `EventStream.dfy` | the chaos proxy's relay of server-sent events (blank-line event framing, cf. section 9.2 of the WHATWG HTML Living Standard) |
| `CanonicalJson.dfy`, `JournalSnapshot.dfy` | canonical JSON text (sections 4 to 7 of RFC 8259) as an equality test for journals |
| `Budget.dfy` | budget admission and charging |
| `Common.dfy` | names that several of these share |

The form follows the source. Objects that are updated in place (the search, the matcher's
store, the ledger tables, the plugin's maps, the effect row) are classes whose methods are
proved against functions or predicates on values; loops are methods with invariants; pure
code is functions. Claims about whole runs are lemmas about sequences of states whose steps
are those same functions or predicates. `MatcherStore.Tick` for instance establishes `Pass`,
and `MatcherRuns` reasons about runs whose steps are `Pass`.

## Where the code and its documentation differ

The model follows the code; each point is a lemma or part of a contract.

- The checker's failure witness is documented as the longest prefix it managed to linearize.
  It is always empty (`Check`), also where a longer prefix is linearizable
  (`RejectionPrefixIsNotTheLongest`).
- The checker compares an operation's start with its own end, so it rejects any history with
  an operation that ends before it starts, even a linearizable one
  (`BackwardsIntervalIsLinearizable`); on all other histories it decides linearizability.
- A fresh lease claim is documented to observe the empty holder; it observes its own claimer.
- A pattern's LIKE translation is meant as a coarse prefilter that loses nothing. It always
  loses a subject that a final `**` matches with no trailing segment
  (`ZeroTrailingSegmentsLost`). Of the other matched subjects it keeps all exactly when each
  literal token of the pattern is kept by its own translation (`PatternKeepsAllIff`); tokens
  in ASCII whose backslashes stand only before `%` or `_` are (`PlainPatternKeepsIff`), none
  with a non-ASCII character is (`FaithfulTokensAreAscii`), and other backslashes can be fatal
  (`BackslashPatternLost`).
- The Go SDK's `seg` is documented to percent-encode what the server encodes. The two agree
  exactly on the bytes of `Agreed`, which exclude space and colon (`SegAgreesWithServer`), so
  a value-change pattern can miss its value or hear of another (`ValueChangeFires`).
- A shard that receives no entry of a full batch while at the minimum cursor holds every
  reaction, of whatever kind, within that batch for good (`IdleShardPinsForever`,
  `PinnedCursors`, `PinnedReactionsStarve`). It happens (`IdleShardExample`).
- With debouncing the newest entry of a subject stays carried by a task whenever all entries
  of the subject fall on one shard (`EveryEntryIsCarried`), as they do when the subject names
  its run (`WhenOneShard`). When they fall on two, a crash can let an older entry take the task
  back (`OlderShardTakesTaskBack`), and even on one a crash can repeat an entry that a claimed
  task already carried (`CrashAfterFoldRepeats`).
- The server's record of a failed dispatch writes PENDING outright, so a non-idempotent effect
  that a reconciler has CONFIRMED in the meantime is called again (`ConfirmedIsCalledAgain`).
  A row that is not PENDING gets a further call exactly if a dispatcher in flight is about to
  call or will reopen it (`NoFurtherCall`, `FurtherCall`). An unspecified observation takes the
  lease of a call in flight (`ObservationDropsLiveLease`), and both flavors repeat a call that
  was answered "pending" (`PendingAnswerIsRepeated`).
- The embedded reactor schedules a retry when a connector raises, whatever the effect's
  semantics (`EmbeddedRepeatsRaisedCalls`); the server's dispatcher parks the effect.
- `MaxPerTick` is documented as a cap on rows touched. It limits only the candidate sessions.
- Session archival looks at obligations and timers but at no effect status, so it can delete
  a PENDING or UNKNOWN effect (`EffectVanishesIff`), which is then forgotten
  (`UnfinishedRowIsForgotten`).
- Completing an effect is documented, and written, as a no-op on a row that is not PENDING. A
  late dispatch attempt or observation is written whatever the row's status (`TerminalStatusChangesIff`, `LateAttemptReopens`), and an
  external reference attached after the last snapshot is lost with the row
  (`LateReferenceSurvivesIff`, `LateReferenceExample`).
- Snapshots remember idempotency keys only: business-key deduplication ends with the row
  (`BusinessKeyIsForgotten`).
- Two calls in flight under one custom key both run their bodies, without any crash
  (`SharedKeyRunsTwice`).
- Without a call id the plugin looks a key up under invocation and tool joined by a colon. The
  lookup stays within the invocation if those names can be told apart (`LookupStaysInside`),
  and crosses into another otherwise (`SharedSlotCrosses`).
- The plugin's keys are reproduced by a fresh plugin (`KeysAreReproduced`) and not by a
  re-drive in the same process (`SameProcessRedriveChangesKeys`).

## Model

| member | source | states |
|---|---|---|
| Linearizability.Check | tape/server/src/lin.rs:61-79 | accepts exactly the well-timed histories that have a linearization, for every model; the witness of a rejection is empty |
| Linearizability.Search.Recurse | tape/server/src/lin.rs:89-135 | on failure pending and linearized are as on entry and no order finishes from here; every memo entry stays a proven dead end; no (pending, state) key is expanded twice |
| Linearizability.Search.Place | tape/server/src/lin.rs:119-131 | placing one candidate and undoing it on failure refutes every order that starts with it |
| Linearizability.Search.Candidates | tape/server/src/lin.rs:114-117 | exactly the pending operations that started no later than every pending end |
| Linearizability.Search.Push | tape/server/src/lin.rs:122-124 | moves one operation, at a position from which it can be put back |
| Linearizability.SearchedOrders | tape/server/src/lin.rs:110-117 | the greedy minimal-candidate rule finds exactly the linearizations of well-timed histories |
| Linearizability.ReplaysPointwise | tape/server/src/lin.rs:119-121 | replaying an order is: each observed response is the model's response in the state reached so far |
| Lease.AcceptedIffLawful | tape/server/src/lin.rs:173-200 | the lease model accepts an order iff each claim is granted to its claimer, or refused naming the claimer of a grant still live, and releases answer Released |
| Lease.GrantsAreDisjoint | tape/server/src/lin.rs:180-197 | two grants with no release between them, neighbours or not: the later is not before the earlier's expiry |
| Lease.RefusalNamesLiveHolder | tape/server/src/lin.rs:182-187 | a refused claim names the claimer of the grant in force, which is live at the claim's instant |
| Lease.LinearizableHistoryIsExclusive | tape/server/src/lin.rs:147-149 | mutual exclusion read off the observed history alone, for any linearizable history |
| Lease.RejectionPrefixIsNotTheLongest | tape/server/src/lin.rs:240-251 | two winners are not linearizable, the first alone is |
| Lease.BackwardsIntervalIsLinearizable | tape/server/src/lin.rs:114-117 | a linearizable history that the start-against-own-end comparison rejects |
| MatcherModel.HashStr | tape/server/src/matcher.rs:268-276 | the accumulator loop computes the left-to-right FNV-1a of the bytes modulo 2^32 |
| MatcherModel.HashVectors | tape/server/src/matcher.rs:268-276 | the published hash values of the empty text and of "a" |
| MatcherModel.AdvanceBounds | tape/server/src/matcher.rs:127-137 | a shard's cursor ends at its old value or at one of the shard's entries, and no entry of the shard is past it |
| Matcher.MatcherStore.ReadCursors | tape/server/src/matcher.rs:79-98 | reads every shard's cursor and the least of them |
| Matcher.MatcherStore.Takes | tape/server/src/matcher.rs:134-157 | an entry is taken iff the pattern matches and the predicate is empty or true; an error is no match |
| Matcher.MatcherStore.CreateTask | tape/server/src/store/sql.rs:1720-1737 | inserts unless the dedup key is taken; keys stay unique |
| Matcher.MatcherStore.CoalesceTask | tape/server/src/store/sql.rs:1950-1973 | rewrites a PENDING row's source and payload unless another row has that key |
| Matcher.MatcherStore.TryCoalesce | tape/server/src/matcher.rs:181-224 | without a fault and with a free key, folds exactly when a newest PENDING task of the subject is inside its window: that row takes over the entry and nothing else changes; otherwise nothing changes; a folded entry is carried by a task |
| Matcher.MatcherStore.NewTask | tape/server/src/matcher.rs:225-247 | adds exactly the entry's row, with its subject, payload and the clock's time, unless refused or crashed |
| Matcher.MatcherStore.DispatchTask | tape/server/src/matcher.rs:181-247 | without a fault: inside the window no row is added and the newest PENDING task is rewritten; outside it the entry's own row is added |
| Matcher.FoldTakesNewest | tape/server/src/store/sql.rs:1937-1949 | the rewritten row is PENDING, of the reaction and subject, none such is younger; it keeps its age and takes the entry's source and payload |
| Matcher.InWindowIff | tape/server/src/matcher.rs:182-191 | an entry is inside the window iff some PENDING task of its reaction and subject was created less than the debounce time ago |
| Matcher.NewKeyIsFree | tape/server/src/store/sql.rs:1723-1730 | the key is free when the reaction has no task for the entry yet |
| Matcher.MatcherStore.Dispatch | tape/server/src/matcher.rs:158-250 | per handler kind: for a task or publish handler the fold inside the window and the own row outside it, for an agent its run, else nothing; and that nothing else of any reaction changes |
| Matcher.MatcherStore.HandleEntries | tape/server/src/matcher.rs:127-254 | up to any crash point, new tasks are due ones and every due one exists or was refused; running cursors are where the entries put them |
| Matcher.MatcherStore.PersistCursors | tape/server/src/matcher.rs:256-263 | each cursor is old or new, without a fault new; other reactions' cursors are untouched |
| Matcher.MatcherStore.Tick | tape/server/src/matcher.rs:67-266 | for every pattern of refused calls and every crash point the pass is a Pass, and without faults a CleanPass |
| Matcher.CoveredDispatch | tape/server/src/matcher.rs:158-253 | a dispatched entry extends what the tasks cover by exactly that entry |
| Matcher.SkippedWasBehind | tape/server/src/matcher.rs:128-133 | an entry skipped by the running cursor was already behind the cursor read at the start |
| MatcherRuns.NothingSkippedNothingRepeated | tape/server/src/matcher.rs:9-16 | over any run with crashes, refusals, appends and dispatchers: tasks only for due entries, at most one each, and one for every due entry up to the cursor that the store did not refuse; cursors never below the start |
| MatcherRuns.TasksAreExact | tape/server/src/matcher.rs:14-16 | after a clean pass and with no refusal, tasks are exactly the matching entries between starting and current cursor |
| MatcherRuns.RowsStayUnique | tape/server/src/store/sql.rs:1723-1730 | a crash at any point and a re-run never yield two tasks for one (reaction, shard, entry) |
| MatcherRuns.CursorsNeverGoBack | tape/server/src/matcher.rs:251-263 | no step lowers a cursor |
| MatcherRuns.BatchCovers | tape/server/src/matcher.rs:110-113 | a batch is contiguous: it holds every entry after the minimum up to its end |
| MatcherFolding.EveryEntryIsCarried | tape/server/src/matcher.rs:171-180 | over any run with crashes, if all entries of its subject fall on one shard, a matching entry up to the shard's cursor has a task of its subject for it or a later entry, unless the store refused it |
| MatcherFolding.WhenOneShard | tape/server/src/matcher.rs:127-130 | they do when the reaction has one shard or the subject determines the run |
| MatcherFolding.CrashAfterFoldRepeats | tape/server/src/matcher.rs:182-263 | a run with one shard: fold, crash before the cursor, claim, and a second task for the folded entry |
| MatcherFolding.OlderShardTakesTaskBack | tape/server/src/matcher.rs:182-263 | a run with two shards and no refusal after which the newest entry is at its shard's cursor and carried by no task |
| MatcherFolding.PairOnTwoShards | tape/server/src/matcher.rs:268-276 | two run ids whose hashes differ in parity |
| MatcherProgress.MinimumRisesIff | tape/server/src/matcher.rs:79-116 | a clean pass raises the minimum iff every shard at the minimum receives an entry of the batch |
| MatcherProgress.IdleShardPinsForever | tape/server/src/matcher.rs:79-113 | an unfed shard at the minimum of a full batch fixes the minimum and the batch in every continuation |
| MatcherProgress.PinnedReactionsStarve | tape/server/src/matcher.rs:110-137 | from then on no reaction of any kind, debounced or not, gets a task outside that batch |
| MatcherProgress.PinnedCursors | tape/server/src/matcher.rs:110-137 | from then on every cursor of every reaction stays where it was or lies in that batch |
| MatcherProgress.IdleShardExample | tape/server/src/matcher.rs:127-137 | a stuck state: entries of one run id whose hash feeds one of two shards |
| MatcherProgress.PassClearsBatch | tape/server/src/matcher.rs:110-137 | with one shard per reaction a clean pass moves the minimum to the end of its batch |
| MatcherProgress.DrainsInBatches | tape/server/src/matcher.rs:27 | after k clean passes n outstanding entries are max(n - 512 k, 0) |
| Ledger.EntryRecoversIff | tape/sdk/go/embedded/snapshot.go:242-259 | a row's snapshot entry gives the row back iff its defaulted texts are not empty and its integers are exact doubles; the status always survives |
| Ledger.SmallIntegersAreExact | tape/sdk/go/embedded/snapshot.go:388-411 | integers up to 2^53 survive JSON |
| Ledger.CollectedIds | tape/sdk/go/embedded/snapshot.go:209-237 | exactly the session's terminal effects up to the watermark are captured |
| Compaction.LedgerDb.TakeSnapshot | tape/sdk/go/embedded/snapshot.go:102-182 | merges the captured effects over the old entries; the watermark is the greater of the old and the new, the creation time stays |
| Compaction.LedgerDb.FindArchivableSessions | tape/sdk/go/embedded/compact.go:233-302 | a possible choice of old sessions, the limit applied first, without unsettled obligation or unfired timer |
| Compaction.LedgerDb.ArchiveSessions | tape/sdk/go/embedded/compact.go:130-159 | removes exactly the sessions' rows from three tables and counts them |
| Compaction.LedgerDb.CompactOnce | tape/sdk/go/embedded/compact.go:107-216 | each statement on what the ones before left; the four counters are the rows and sessions removed |
| Compaction.PassIsOneDeletion | tape/sdk/go/embedded/compact.go:96-106 | what CompactOnce leaves, statement by statement, equals one deletion by conditions read before any of them |
| Compaction.PinsSurvive | tape/sdk/go/embedded/compact.go:187-200 | no earlier statement unpins an effect |
| Compaction.PinnedIff | tape/sdk/go/embedded/compact.go:195-200 | an effect is pinned iff some obligation of its session id and key is neither compensated nor stuck |
| Compaction.UnsettledWorkSurvives | tape/sdk/go/embedded/compact.go:161-211 | pending, committed and stuck obligations, unfired timers, and every effect some obligation of whose session id and key is pending or committed survive any pass |
| Compaction.EffectVanishesIff | tape/sdk/go/embedded/compact.go:187-211 | an effect disappears in a pass iff its session is archived, or it is CONFIRMED or FAILED, past the cutoff, and every obligation of its session id and key is compensated or stuck |
| Compaction.SettledRowsVanishIff | tape/sdk/go/embedded/compact.go:161-185 | exactly which obligations and timers disappear in a pass |
| Compaction.ArchivedSessionIsQuiet | tape/sdk/go/embedded/compact.go:224-302 | an archived session had only effects past the cutoff, only compensated obligations and only fired timers |
| Compaction.QuietSessionsGo | tape/sdk/go/embedded/compact.go:114-126 | a pass archives at most its limit of sessions, 1000 by default, and exactly the old and quiet ones when no more than that are old |
| Compaction.SnapshotThenPruneIff | tape/sdk/go/embedded/snapshot.go:295-365 | exactly when a terminal key keeps its answer through snapshot and prune |
| Compaction.SnapshotCoversPrune | tape/sdk/go/embedded/snapshot.go:95-101 | a snapshot whose watermark reaches both cutoffs, followed by a pass, loses no recoverable terminal answer |
| LedgerRuns.PrunedAnswersLikeFull | tape/sdk/go/embedded/service.go:349-373 | over whole runs of all row writers, snapshots and compactions, a key that only safe steps touched answers as with no row ever deleted |
| LedgerRuns.NoKeyBeginsTwice | tape/sdk/go/embedded/service.go:325-409 | a key that ever existed, and that only safe steps touched, never gets a second row |
| LedgerRuns.BeginCreatesPending | tape/sdk/go/embedded/service.go:330-409 | beginning a new key adds exactly one PENDING row with the draft's fields; beginning a known one changes nothing |
| LedgerRuns.CompletionWrites | tape/sdk/go/embedded/service.go:413-444 | a completion sets status, response and error of a PENDING row and changes no other |
| LedgerRuns.ObservationWrites | tape/sdk/go/embedded/service.go:560-654 | what each observation makes of status, response, error and reference, whatever the row's status |
| LedgerRuns.TerminalIsForever | tape/sdk/go/embedded/service.go:429-431 | a terminal row never changes until an attempt, an observation or a late reference is written to it |
| LedgerRuns.TerminalStatusChangesIff | tape/sdk/go/embedded/service.go:512-654 | a step changes a terminal row's status iff it is an attempt that gives up on it or an observation that contradicts it |
| LedgerRuns.LateAttemptReopens | tape/sdk/go/embedded/service.go:523-537 | a run that turns a confirmed row unknown |
| LedgerRuns.LateReferenceSurvivesIff | tape/sdk/go/embedded/reactors.go:120-130 | a reference attached to a captured row that a pass then removes survives iff a snapshot in between reaches the row |
| LedgerRuns.LateReferenceIsLost | tape/sdk/go/embedded/reactors.go:120-130 | without a later snapshot the lookup answers the old reference |
| LedgerRuns.LateReferenceExample | tape/sdk/go/embedded/reactors.go:120-130 | a pass that loses the reference of an old captured row |
| LedgerRuns.WriteToPrunedRowIsLost | tape/sdk/go/embedded/service.go:516-522 | a write to a pruned row changes no lookup |
| LedgerRuns.UncapturedRowIsForgotten | tape/sdk/go/embedded/compact.go:30-34 | a row that a pass removes and no snapshot has is not found any more |
| LedgerRuns.UnfinishedRowIsForgotten | tape/sdk/go/embedded/compact.go:224-302 | a pass over a ledger with one old PENDING or UNKNOWN row archives and forgets it |
| LedgerRuns.SnapshotMissesUnfinished | tape/sdk/go/embedded/snapshot.go:212-220 | an unfinished row is not captured, so a completion at the watermark's own instant is missed |
| LedgerRuns.BusinessKeyIsForgotten | tape/sdk/go/embedded/service.go:390-400 | a row that a pass removed no longer refuses its connector and business key |
| Segments.EncodeLoop | tape/server/src/subjects.rs:19-36 | the byte loop writes the concatenation of the bytes' own encodings, or the underscore |
| Segments.DecodeInvertsEncode | tape/server/src/subjects.rs:16-36 | percent-decoding inverts the encoder on every non-empty byte string |
| Segments.EncodeCollides | tape/server/src/subjects.rs:20-22 | two segments are written alike iff equal, or one is empty and the other the underscore |
| Segments.EncodedIsOneLiteral | tape/server/src/subjects.rs:16-18 | an encoded segment is not empty and holds no slash, star, space, question mark, hash or backslash |
| Subjects.DerivedSegments | tape/server/src/subjects.rs:51-114 | the subject of each kind, segment by segment: verb, dimensions and their order |
| Subjects.SubjectSplits | tape/server/src/subjects.rs:51-114 | decision, effect, value and event subjects split into exactly their layout whatever the payload |
| Subjects.StatusSplits | tape/server/src/subjects.rs:53-91 | run, obligation and gate subjects split into the name, the segments of the unencoded status, and the dimensions |
| Subjects.RunIdIsLast | tape/server/src/subjects.rs:53-91 | the last segment of a run, effect, obligation or gate subject decodes to its run id |
| Subjects.SubjectDeterminesDimensions | tape/server/src/subjects.rs:51-114 | such a subject determines kind, verb, every dimension (empty and underscore apart) and the decision index |
| Subjects.StatusSubjectShape | tape/server/src/subjects.rs:53-91 | run, obligation and gate subjects have their layout's segments iff the lower-cased status has no slash |
| Subjects.SegAgreesWithServer | tape/sdk/go/reactions.go:149-157 | SDK and server write a segment alike iff it is not empty, not a wildcard, and only of agreed bytes |
| Subjects.AgreedBytes | tape/sdk/go/reactions.go:149-157 | the bytes both sides write alike, listed |
| Subjects.ValueChangeFires | tape/sdk/go/reactions.go:159-178 | exactly which derived value subjects a value-change or value-deletion pattern matches, for every namespace and key, wildcards and the empty key included |
| Subjects.EffectFires | tape/sdk/go/reactions.go:180-209 | the confirmed, failed and unknown handlers hear of exactly the effects with that lower-cased status whose tool their tool takes |
| Subjects.DecisionFires | tape/sdk/go/reactions.go:211-216 | the decision handler hears of every decision and of no other known kind |
| Subjects.GateFires | tape/sdk/go/reactions.go:218-227 | a gate handler hears of exactly the gates whose first status segment its verb takes and whose next segment its gate takes |
| Subjects.RunFires | tape/sdk/go/reactions.go:229-237 | a run handler hears of exactly the runs whose first status segment its status takes |
| Patterns.Matches | tape/server/src/subjects.rs:118-143 | the loop decides the declarative reading: one star one segment, two stars only last and for any rest |
| Patterns.OneTokenLaw | tape/server/src/subjects.rs:118-143 | what a pattern of one token matches |
| Patterns.FirstTokenLaw | tape/server/src/subjects.rs:118-143 | the first token takes the text before the first slash and the rest of the pattern what follows |
| Patterns.DoubleStarLaw | tape/server/src/subjects.rs:128-131 | for q without double star, q followed by two stars matches a subject iff q matches it or what comes before one of its slashes |
| Patterns.DoubleStarTakesAll | tape/server/src/subjects.rs:188-191 | so it matches every continuation of every subject q matches |
| Patterns.PatternToSqlLike | tape/server/src/subjects.rs:153-181 | the byte loop produces the token-by-token translation |
| Patterns.PrefilterKeepsIff | tape/server/src/store/sql.rs:1568-1591 | for every pattern and matched subject, exactly when it is kept: never with fewer segments; with equally many iff every token is kept by its own translation; with more iff some beginning is LIKE what precedes the double star |
| Patterns.DoubleStarKeepsIff | tape/server/src/subjects.rs:160-171 | a pattern ending in a double star keeps exactly the subjects of which some beginning is LIKE the translation of the rest |
| Patterns.PatternKeepsAllIff | tape/server/src/store/sql.rs:1568-1591 | a pattern's prefilter keeps every matched subject of enough segments iff every token is kept by its own translation |
| Patterns.PlainPatternKeepsIff | tape/server/src/subjects.rs:145-181 | for ASCII tokens with backslashes only before LIKE's metacharacters: kept iff the subject has enough segments |
| Patterns.LikeSplits | tape/server/src/subjects.rs:145-152 | with equally many slashes on both sides LIKE never matches across a segment boundary |
| Patterns.SegmentsCovered | tape/server/src/subjects.rs:145-152 | the over-approximation, segment by segment, for every collation |
| Patterns.LikeKeepsSlashes | tape/server/src/subjects.rs:145-152 | what is LIKE a pattern has at least its slashes |
| Patterns.EmptyPatternKeepsAll | tape/server/src/subjects.rs:154-156 | the empty pattern matches and keeps everything |
| Patterns.ZeroTrailingSegmentsLost | tape/server/src/subjects.rs:201-203 | for every subject, the pattern that appends two stars matches it and its prefilter drops it |
| Patterns.NonAsciiPatternLost | tape/server/src/subjects.rs:159-178 | a pattern loses every subject with fewer than twice its own non-ASCII characters |
| Patterns.FaithfulTokensAreAscii | tape/server/src/subjects.rs:159-178 | no token with a non-ASCII character is kept by its own translation |
| Patterns.BackslashPatternLost | tape/server/src/subjects.rs:172-177 | a copied backslash is read as an escape |
| Patterns.LiteralPatternIsExact | tape/server/src/subjects.rs:159-178 | the prefilter of an ASCII pattern without star and backslash keeps its own text and nothing else |
| Outbox.EffectRow.ClaimEffectDispatch | tape/server/src/store/sql.rs:1006-1028 | the lease is taken iff the row is pending, due and not under a live lease, with the default of 60000 ms |
| Outbox.EffectRow.DispatchOne | tape/sdk/go/outbox_dispatcher.go:96-183 | one call iff the claim is won, and the row transition each outcome causes |
| Outbox.RecordOutcomes | tape/sdk/go/outbox_dispatcher.go:122-182 | per outcome and flavor, what a PENDING row becomes: CONFIRMED, UNKNOWN, FAILED, or PENDING again at the retry instant with one more attempt |
| Outbox.RecordedInRun | tape/sdk/go/outbox_dispatcher.go:138-157 | in good runs a record on a PENDING row makes it CONFIRMED iff the call was acknowledged, UNKNOWN if its acknowledgement was lost or, on the server, it raised |
| Outbox.ObservationOutcomes | tape/server/src/store/sql.rs:1067-1105 | what each observation makes of a row |
| Outbox.ClaimsWait | tape/server/src/store/sql.rs:1014-1028 | in any run a claim is won only on a PENDING, due row without a live lease, and takes the lease |
| Outbox.LeaseKept | tape/sdk/go/outbox_dispatcher.go:110-118 | in good runs at most one dispatcher is active, and while the row is pending it holds the lease |
| Outbox.OnlyRetryableCallsAreRepeated | tape/sdk/go/outbox_dispatcher.go:122-182 | in every good interleaving, of server or embedded dispatchers with reconcilers writing to any row at any time, a call follows only retryable outcomes |
| Outbox.NoCallAfterAmbiguity | tape/sdk/go/client.go:292-309 | a non-idempotent effect gets no call after a confirmed, lost or raised one, and on the server at most the maximum number of calls |
| Outbox.NoFurtherCall | tape/server/src/store/sql.rs:1040-1053 | a row that is not pending gets no further call, in any continuation, when no dispatcher in flight is about to call or will reopen it |
| Outbox.FurtherCall | tape/server/src/store/sql.rs:1040-1053 | and if one is, there is a good continuation with one more call |
| Outbox.ConfirmedIsCalledAgain | tape/server/src/store/sql.rs:1030-1065 | a good server run that calls a non-idempotent effect the ledger had confirmed |
| Outbox.PendingAnswerIsRepeated | tape/sdk/go/outbox_dispatcher.go:159-181 | both flavors repeat a call that was answered pending |
| Outbox.CountKept | tape/sdk/go/outbox_dispatcher.go:159-174 | while a call is possible or in flight, calls equal recorded attempts plus the one in flight, below the maximum |
| Outbox.EmbeddedRepeatsRaisedCalls | tape/sdk/go/embedded/reactors.go:98-111 | a timely run of the embedded reactor that repeats a raised non-idempotent call |
| Outbox.ExpiredLeaseRepeatsConfirmedCall | tape/server/src/store/sql.rs:1014-1022 | without timeliness a confirmed call is repeated |
| Outbox.ObservationDropsLiveLease | tape/server/src/store/sql.rs:1089-1105 | a timely run in which an unspecified observation of a pending row lets a second dispatcher repeat a confirmed call |
| CallbackJournal.TapePlugin.BeforeRun | tape/sdk/go/adkplugin/plugin.go:199-207 | resets the decision indices of the invocation and no counter |
| CallbackJournal.TapePlugin.CountCall | tape/sdk/go/adkplugin/plugin.go:231-237 | hands out the next index of the (invocation, decision, tool) and no other |
| CallbackJournal.TapePlugin.LookupKey | tape/sdk/go/adkplugin/plugin.go:441-459 | by call id if stashed, else the most recent call of the tool |
| CallbackJournal.CallbacksAreRouted | tape/sdk/go/adkplugin/plugin.go:292-303 | in every interleaving an admitted call's callbacks find the key under which that call began its effect |
| CallbackJournal.CompletionSettlesOwnRow | tape/sdk/go/adkplugin/plugin.go:351-379 | in every interleaving a completion settles the row of the key its own call journaled, if PENDING, and no other |
| CallbackJournal.BodiesChargedToCrashes | tape/sdk/go/adkplugin/plugin.go:211-220 | when calls in flight together cannot share a key, a body runs at most once more than crashes hit its key between a body and its completion |
| CallbackJournal.DerivedKeysChargedToCrashes | tape/sdk/go/embedded/service.go:344-347 | so it does for all calls with derived keys and slash-free tool names |
| CallbackJournal.DerivedKeyInjective | tape/sdk/go/embedded/service.go:344-347 | for slash-free tool names a derived key determines invocation, decision, tool and index |
| CallbackJournal.SharedKeyRunsTwice | tape/sdk/go/adkplugin/plugin.go:262-282 | any two calls that get one key have an interleaving without crash in which the body runs twice |
| CallbackJournal.IndexIsRank | tape/sdk/go/adkplugin/plugin.go:231-237 | a call's index is its rank among the calls of its tool, however others interleave |
| CallbackJournal.KeysAreReproduced | tape/sdk/go/embedded/service.go:344-347 | two drives by fresh plugins begin the effects of calls of equal rank under equal keys |
| CallbackJournal.SameProcessRedriveChangesKeys | tape/sdk/go/adkplugin/plugin.go:199-207 | after a second before-run in the same process the next key differs from every earlier one of the tool |
| CallbackJournal.MisroutedWithoutIds | tape/sdk/go/adkplugin/plugin.go:449-458 | without call ids the earlier of two concurrent calls finds the later one's key, which differs from its own |
| CallbackLookup.SlotsMeet | tape/sdk/go/adkplugin/plugin.go:461-463 | two slots are one iff the indices agree and so do invocation and tool joined by a colon |
| CallbackLookup.LookupStaysInside | tape/sdk/go/adkplugin/plugin.go:449-458 | in every interleaving in which no two calls' different names join alike, a lookup without a call id answers for the latest call of that tool in that invocation: nothing until it has stashed, then the key it journaled |
| CallbackLookup.SharedSlotCrosses | tape/sdk/go/adkplugin/plugin.go:461-463 | any two calls whose different names join alike have a run in which the lookup for one answers the other's key |
| CallbackLookup.ColonFreeNamesApart | tape/sdk/go/adkplugin/plugin.go:461-463 | names join apart when no tool has a colon in its name |
| CallbackLookup.NamesThatReadAlike | tape/sdk/go/adkplugin/plugin.go:461-463 | two calls of different invocations whose names join alike |
| EventStream.CutPoint | tape/sdk/go/chaos/proxies.go:427-436 | the least of the truncation points, zero if there is none |
| EventStream.Drain | tape/sdk/go/chaos/proxies.go:454-470 | forwards the buffered complete events up to the cut and keeps the leftover |
| EventStream.ReplyStream | tape/sdk/go/chaos/proxies.go:426-479 | without a drop fault the output is the first cutAt complete events of the whole body for every chunking; with one, those of the shortest run of chunks holding an event |
| EventStream.EventsExtend | tape/sdk/go/chaos/proxies.go:453-459 | cutting a grown body equals cutting the leftover and the new bytes |
| EventStream.EventsPartition | tape/sdk/go/chaos/proxies.go:455-459 | events and leftover make up the body |
| EventStream.EventsAreWhole | tape/sdk/go/chaos/proxies.go:455-459 | every event ends at its first blank line and the leftover has none |
| CanonicalJson.Encode | tape/sdk/go/chaos/snapshot.go:66-103 | the encoder's loops produce one text whatever the enumeration order of any object |
| CanonicalJson.SortedKeysUnique | tape/sdk/go/chaos/snapshot.go:69-73 | there is one ascending sequence of an object's keys |
| CanonicalJson.BeforeAtDifference | tape/sdk/go/chaos/snapshot.go:73 | ascending means by code point at the first difference, a beginning before what extends it |
| CanonicalJson.ArrayText | tape/sdk/go/chaos/snapshot.go:88-99 | an array's text is its items' texts, separated by commas, in brackets |
| CanonicalJson.ObjectText | tape/sdk/go/chaos/snapshot.go:74-87 | an object's text is its quoted keys in order, each with a colon and its value's text, separated by commas, in braces |
| CanonicalJson.TextsReadBack | tape/sdk/go/chaos/snapshot.go:80 | reading a quoted text by the escapes of section 7 of RFC 8259 gives the text that was written |
| CanonicalJson.EncodeUnique | tape/sdk/go/chaos/snapshot.go:66-103 | a value's text, followed by anything that cannot extend it, determines value and rest |
| CanonicalJson.EncodingDecidesEquality | tape/sdk/go/chaos/snapshot.go:60-64 | equal texts iff equal values |
| JournalSnapshot.CanonicalIffAlike | tape/sdk/go/chaos/snapshot.go:30-58 | canonical values are equal iff the originals agree up to stripped fields at any depth and the run id in texts |
| JournalSnapshot.RenameFills | tape/sdk/go/chaos/snapshot.go:47-54 | renaming replaces exactly the places where the id was put, if it starts nowhere else |
| JournalSnapshot.RunIdIsErased | tape/sdk/go/chaos/snapshot.go:47-54 | texts that differ only in the run id become equal |
| JournalSnapshot.CanonicalIdConflated | tape/sdk/go/chaos/snapshot.go:47-54 | a text that is the run's id and one that is the canonical id written out compare equal |
| JournalSnapshot.OtherTextsAreCompared | tape/sdk/go/chaos/snapshot.go:47-54 | texts that mention neither run's id compare equal iff they are |
| JournalSnapshot.FilledTextsAreCompared | tape/sdk/go/chaos/snapshot.go:47-54 | texts that mention the ids compare equal iff they agree but for them, when no id starts anywhere else |
| JournalSnapshot.Equals | tape/sdk/go/chaos/snapshot.go:118-128 | decides equality of the lines |
| JournalSnapshot.Diff | tape/sdk/go/chaos/snapshot.go:138-161 | exactly one entry for each differing position, in order, that names the side that is missing and holds the lines of the other; empty iff equal |
| JournalSnapshot.SnapshotsDecideJournals | tape/sdk/go/chaos/snapshot.go:105-128 | snapshots are equal iff the journals agree entry by entry up to stripped fields and run id |
| Budget.OvershootBound | tape/server/src/service.rs:284-301 | in every interleaving, spent plus outstanding exceeds a cap by at most (k - 1) estimates; with one open call never |
| Budget.OvershootAttained | tape/server/src/service.rs:284-297 | for every k a run that overshoots by exactly that much |
| Budget.ChargeKeeps | tape/server/src/store/sql.rs:1330-1335 | charging at most the estimate keeps the bound |
| Budget.SpentIsCharged | tape/server/src/store/sql.rs:1330-1335 | in every interleaving the amount spent is the starting amount plus the sum of all charges |

## Left out

- gRPC, HTTP, Pub/Sub, Cloud Tasks, Bigtable, tenancy, tracing, logs and the command-line tools: plumbing without a hard property.
- The CEL interpreter: a parameter with results true, false and error.
- Clocks: parameters. The matcher's readings are a function of how many store calls the pass has made, the lease and the compactor take their instants as inputs.
- Machine integers: sequence numbers, times and counters are unbounded, except the hash (modulo 2^32) and the largest i64 that the matcher uses as a sentinel.
- SQL dialects and Postgres races: tables are maps or sequences with atomic statements, as under the in-process lock.
- Matcher.MatcherStore.Tick: requires cursors below the largest i64 and distinct reaction ids, which the store's rows satisfy, and reads the journal at one instant; a failed read ends a pass before it writes anything and is not a separate case.
- MatcherRuns.NothingSkippedNothingRepeated: covers reactions without debouncing and with fixed shard counts, because folding replaces a row's source entry; MatcherFolding says what debouncing keeps. Passes are atomic against appends and dispatchers, so a claim between two entries of one pass is not a case of its own.
- MatcherRuns.TasksAreExact: as above, and a refused create_task is excluded, because the source logs it and moves the cursor on.
- Agent runs started by the matcher are stated for one dispatch only; they are best effort in the source.
- LIKE with an escape at its very end is read as no match, where a database may report an error.
- Subjects.StatusSubjectShape: other kinds copy their name unencoded and get no shape.
- Unicode lower-casing of a status is a function parameter.
- Outbox.NoCallAfterAmbiguity: assumes connectors that never answer pending and, for the embedded reactor, that never raise; dispatchers crash before the call or record before their lease expires, and on the server no unspecified observation takes the lease of a call in flight. Each exception has its run.
- Reconcilers resolve to CONFIRMED or FAILED, as those of the repository do; other statuses that the call would accept are not modelled.
- Outbox backoff delays: any positive retry instant is allowed; the doubling formulas are not modelled.
- CallbackJournal.BodiesChargedToCrashes: assumes unique non-empty call ids, and that calls in flight together are apart: declared keys differ from each other and from derivable ones, and tools that derive keys have no slash in their names. Refusals by BeginEffect, business keys, outbox tools and compensation are not modelled.
- LedgerRuns.PrunedAnswersLikeFull: for keys that only safe steps touched: watermarks in the past, only terminal rows within the watermark and without a late reference pruned, nothing written to a pruned row; the lemmas beside it show what is lost otherwise. The dispatch lease columns are not part of a row.
- Ledger.EntryRecoversIff: the dispatch bookkeeping columns, which a snapshot does not capture, are not part of a row, and JSON columns are compared by their decoded text, numbers inside them included.
- EventStream.ReplyStream: write errors to the client and the response header tag are not modelled.
- CanonicalJson.EncodingDecidesEquality: numbers are the tokens the leaf encoder prints and strings are sequences of characters; invalid UTF-8, which the leaf encoder replaces, is not modelled.
- JournalSnapshot.Diff: the run-id map has one entry, as both capture functions build it.
- Budget amounts are reals; floating-point rounding is not modelled.
- The watch_value loop, the debouncer of the Go SDK, lineage enumeration, JSON mutation faults and configuration: easy members only.
