# Verified models of HenKaiPan

HenKaiPan collects the findings of security scanners, correlates them, keeps threat intelligence about the
dependencies of a project, and tells its users about it. This project models the parts of it that carry
invariants over unbounded inputs or runs, and proves those invariants. Postgres tables are sequences and maps, a
Redis hash is a record with an expiry, and concurrency is a state machine over steps.

| files | component |
|---|---|
| `SqlSplitter`, `SqlReference`, `SqlRoundTrip`, `SqlSemicolon` | the SQL script splitter: the code's scan with look-ahead, a reference lexer that reads one character at a time, the round trip, and when a plain semicolon would do |
| `Migrations`, `MigrationProtocol`, `MigrationRunner`, `MigrationRefinement`, `Numbers` | the migration runner: the sequential story of a database, any number of processes that fail or crash anywhere, one run of the loop, and that such a run is a run of the protocol |
| `Correlation`, `CorrelationRuns` | the batch correlation graph and the confidence scores, maintained finding by finding |
| `SummaryCache` | the cache of AI summaries keyed by fingerprint |
| `TokenBucket` | the token bucket in Redis |
| `Versions`, `AffectedVersions`, `OsvQuery` | the order on versions, affected ranges, and batched OSV queries |
| `Reconcile`, `ReconcileRuns` | idempotent reconciliation of threat hits that reports only changes |
| `Vulnerabilities`, `Backfill` | vulnerabilities counted over findings, and the backfill loop |
| `EventHub`, `EventStreams` | the hub behind server-sent events |
| `GlobLike` | globs translated to LIKE patterns |
| `Text`, `Wrappers` | strings as Go sees them, and `Option` |

Where the source changes state, the model is a class whose methods are proved against specification functions;
the properties are then proved about those functions over whole runs. Each file's first comment names the source
it models.

## Where the code and its comments or conventional wisdom differ

The model follows the code. Each difference is a lemma that says exactly when the code does what one would expect:

- Joining split statements with ";" alone splits back exactly when no statement but the last ends inside a line
  comment (`SemicolonAloneExactly`); joining with a newline on both sides always does.
- A run that reports success need not have installed every file: after any runs of which the last succeeds, every
  file took effect exactly when no two share a version (`SuccessInstallsAll`, and `RepeatedVersionIsSkipped` for
  how it fails).
- The correlation predicate takes its line threshold and same-scanner flag from one side only. It is symmetric on
  findings that have a line number, which every insert writes, and not without one (`MissingLineIsAsymmetric`).
- The factor two in the bucket's key expiry is not needed for cutting the clock to seconds, which costs nothing
  over a whole number of seconds: a factor of one would do for a client clock that lags the server's by at most a
  millisecond. The factor two absorbs a lag of the fill time more, in every configuration exactly that much
  (`LagToleratedExactly`), and the rate is kept in all runs within a lag exactly when that lag is tolerated
  (`RateBoundExactly`). A fresh bucket admits any cost, also one above its capacity (`FreshBucketAdmitsAnything`).
- `compareVersions` is not an order on all versions (`MixedSegmentsCycle`). Two comparisons chain exactly where, at
  the first position that decides one of them, no text lies between two numbers that are not in that order as
  numbers, or a draw of the outer two there is decided later (`ChainsUnlessMisplaced`, `TransitiveExactly`).
- The range check takes the events in list order, where the OSV Schema's evaluation sorts them first. On a sorted list
  it accepts the versions found vulnerable that are at or above the last introduced bound, fewer with several
  introduced bounds and the same with one (`OsvRelation`, `TwoIntroducedDiffer`, `OneIntroducedAgrees`). On an
  unsorted list with one introduced bound it may accept more: it agrees on all numeric versions exactly when the
  fixed bounds listed after the introduced one end the interval where those above it do (`UnsortedDiffers`,
  `OneIntroducedExactly`).
- The map of fetched records by id is independent of the order in which requests complete exactly when no two
  records share an id and differ (`RenamedRecordsRace`).
- `ReconcileHits` says it upserts on its unique key, but NULLs are distinct in that index: a hit with an empty
  package name or version is inserted again each time (`ResubmittingAddsRow`). A call that fails part of the way
  keeps the rows it wrote without reporting them: a retry reports a key exactly when its status is news and none of
  its hits had been stored (`FailureSwallowsReports`, `NewsIsLost`).
- A link that fails after its upsert is counted all the same. A finding count is the number of findings linked plus
  the number of links lost, so it is right exactly when none was, and nothing repairs it (`CountIsLinkedAndLost`,
  `CountsAreConserved`, `LostForGood`).
- Severities are compared as text. The stored one is the worst of the linked findings exactly when one of them is
  critical or high or they all have the same (`TextOrderIsNotSeverity`, `StoredSeverityIsWorst`).
- `Broadcast` is documented to skip filtering, and does not: a client's channel changes exactly when the client wants
  the event and has room (`BroadcastIsFiltered`). A channel leaks exactly when
  a registration replaces a registered client, and then for good (`LeaksExactlyOnReuse`, `LeaksForGood`).
- Single flight of summary generation, and the agreement of ready findings with the cache, hold when each
  `PrepareAISummary` is atomic. When old lookups are carried out later, generations are at most one more than
  failures and stale executions (`FlightsBounded`), and the agreement survives exactly when no execution is harmful:
  one that copies a summary which is no longer the cached one, or retries a failure that has a summary by now
  (`ExecuteAgreesExactly`, `AgreesUnlessHarmful`, and `InterleavedStoreGoesStale` and `InterleavedRetryForgets` for
  how each comes about).
- `globToLike` says everything but its wildcards is escaped; a backslash is not. The translation keeps the meaning
  of exactly the patterns without one (`MeaningKeptUnlessBackslash`).

## Model

| member | source | states |
|---|---|---|
| SqlSplitter.IsDollarTag | internal/db/migrate.go:252-262 | true exactly for "$", tag characters, "$" |
| SqlSplitter.TagRestIsIndex | internal/db/migrate.go:220-231 | the tag found by the look-ahead is the text up to the next "$", when that is a tag |
| SqlSplitter.Scan | internal/db/migrate.go:149-240 | one turn of the five-mode loop takes the token of the grammar at that position and always advances |
| SqlSplitter.SplitSQLStatements | internal/db/migrate.go:140-249 | the loop returns the non-blank trimmed pieces of the grammar, for every script, and terminates |
| SqlReference.CutsAreTopLevelSemicolons | internal/db/migrate.go:146-249 | a semicolon cuts exactly when a lexer reading one character at a time is at the top level there |
| SqlReference.SplitIsLossless | internal/db/migrate.go:146-249 | the raw pieces joined by ";" are the script |
| SqlReference.StatementsKeepInk | internal/db/migrate.go:233-249 | the statements hold every character of the script that is neither white space nor a top-level semicolon, in order |
| SqlReference.StatementsCount | internal/db/migrate.go:233-249 | there are as many statements as pieces between top-level semicolons that are not blank |
| SqlRoundTrip.TokenLocal | internal/db/migrate.go:149-240 | every look-ahead, the search for a dollar tag included, answers the same before other text that starts with a newline |
| SqlRoundTrip.StatementsTrimmed | internal/db/migrate.go:233-249 | every statement is trimmed and non-empty |
| SqlRoundTrip.StatementsWellFormed | internal/db/migrate.go:140-249 | every statement but the last can be followed by a newline and a cut at the top level |
| SqlRoundTrip.SplitRoundTrip | internal/db/migrate.go:140-249 | splitting the statements joined by newline, ";", newline gives back the same statements, for every script |
| SqlSemicolon.SemicolonAloneExactly | internal/db/migrate.go:140-249 | for every script, joining with ";" alone splits back if and only if no statement but the last ends in a line comment |
| SqlSemicolon.SemicolonAloneIsNotEnough | internal/db/migrate.go:233-249 | a script where one does, and it does not split back |
| SqlSemicolon.LeadingCommentIsKept | internal/db/migrate.go:158-240 | a line comment a script starts with is the start of its first statement |
| Migrations.ScriptExactlyOnce | internal/db/migrate.go:104-121 | in any history of one migrator a transactional script appears exactly once if its file got recorded, else never |
| Migrations.RowAfterFullAttempt | internal/db/migrate.go:123-133 | the version row of a non-transactional file follows one uninterrupted attempt at all its statements |
| Migrations.EffectsFitFiles | internal/db/migrate.go:79-89 | scripts in a history are of transactional files, statements and rows of the others |
| MigrationProtocol.StepKeepsInv | internal/db/migrate.go:26-133 | every step of any process, failure or crash keeps lock, history and knowledge consistent |
| MigrationProtocol.MutualExclusion | internal/db/migrate.go:37-43 | over every run with crashes, for every list of files, at most one process is in the critical section |
| MigrationProtocol.RecordedIsPrefix | internal/db/migrate.go:49-95 | recorded versions are always a prefix of the sorted files |
| MigrationProtocol.TransactionalAtMostOnce | internal/db/migrate.go:104-121 | over the whole run a transactional migration takes effect once if recorded in it, else never |
| MigrationProtocol.RecordedAfterFullAttempt | internal/db/migrate.go:123-133 | a non-transactional version is recorded only right after one full attempt |
| MigrationProtocol.EachVersionOnce | internal/db/migrate.go:104-133 | over every run, for every list of files, a version takes effect once if it gets recorded in the run, else never |
| MigrationProtocol.CommitFollowsScript | internal/db/migrate.go:104-121 | a commit follows the begin, the script and the version row of its own transaction, with nothing of its process in between |
| MigrationRefinement.RunIsProtocolRun | internal/db/migrate.go:26-133 | for every list of files, wherever a run's connection fails: steps of its process alone, from any world with a free lock, record the same versions, leave the same history, and free the lock |
| MigrationRefinement.CanAlwaysComplete | internal/db/migrate.go:26-133 | from every reachable world, once the session that holds the lock has ended, steps of any one process record every file and free the lock |
| MigrationRunner.SameVersion | internal/db/migrate.go:292-303 | when the prefixes before the first underscore of two paths give the same version |
| MigrationRunner.VersionIs | internal/db/migrate.go:292-303 | the version of a file is the text before the first underscore of its last path element, padded when it is a number, or all of it without an underscore |
| MigrationRunner.FileMeaning | internal/db/migrate.go:73-102 | a file runs outside a transaction exactly when the marker comes first, which then opens its first statement; its statements are trimmed, non-empty and read back as they are |
| MigrationRunner.Connection.PendingSources | internal/db/migrate.go:60-66 | the loop keeps the files whose version is not recorded, in order |
| MigrationRunner.Connection.ApplyTransactional | internal/db/migrate.go:104-121 | wherever a statement fails, script and version row become durable together or not at all |
| MigrationRunner.Connection.ApplyNonTransactional | internal/db/migrate.go:123-133 | the statements run before a failure stay, and the row is last |
| MigrationRunner.Connection.RunMigrations | internal/db/migrate.go:26-97 | the loop over the pending files, and the lock is released however it ends |
| MigrationRunner.RunConsistent | internal/db/migrate.go:26-97 | wherever a run fails the database fits the sequential story; a run that succeeds has recorded every file |
| MigrationRunner.RunSucceeds | internal/db/migrate.go:26-133 | a run succeeds if and only if no statement fails and no pending version repeats |
| MigrationRunner.SuccessInstallsAll | internal/db/migrate.go:26-133 | from an empty database, after any runs of which the last reports success, as many files took effect as there are exactly when their versions differ |
| MigrationRunner.RepeatedVersionIsSkipped | internal/db/migrate.go:61-66 | how two transactional files of one version fail: an error, then success without the second script |
| Numbers.AtoiExactly | internal/db/migrate.go:298-301 | digits, with a sign or without, are read as their number if and only if it fits 64 bits |
| Numbers.AtoiPadded | internal/db/migrate.go:298-302 | reading a padded number back gives the number, over 64 bits |
| Numbers.PaddedIsShort | internal/db/migrate.go:298-302 | a padded number has at least three characters, a minus sign included, and leading zeros only to get there |
| Correlation.CorrelatesSymmetric | internal/repository/finding.go:683-750 | the match predicate is symmetric on findings with line numbers |
| Correlation.MissingLineIsAsymmetric | internal/repository/finding.go:683-750 | an unsuppressed finding with a file path but no line, of a category with a second scanner, matches one that does not match it; an insert never writes one |
| Correlation.ConfidenceRange | internal/repository/finding.go:830-838 | a score is null or above one half and at most one |
| Correlation.Repository.FindBatchMatches | internal/repository/finding.go:683-750 | the loop over the rows collects the matches of the finding; CorrelationRuns.EdgesExactly says what those are |
| Correlation.Repository.ReplaceCorrelationSet | internal/repository/finding.go:752-770 | the finding's family edges are replaced by canonical pairs with its matches, other edges stay |
| Correlation.Repository.RecalculateConfidence | internal/repository/finding.go:772-847 | the stored score is the one computed from the tables |
| Correlation.Repository.RefreshBatchCorrelation | internal/repository/finding.go:548-570 | edges of one finding rebuilt, it and its matches rescored, an unknown finding changes nothing |
| CorrelationRuns.RefreshSound | internal/repository/finding.go:548-570 | after a refresh every family edge is a canonical pair of related findings |
| CorrelationRuns.RefreshComplete | internal/repository/finding.go:548-570 | after a refresh any two related refreshed findings have their edge |
| CorrelationRuns.UnmatchedKeepsScore | internal/repository/finding.go:559-569 | a finding that is not a match has the same recomputed score before and after |
| CorrelationRuns.IncrementalEqualsFromScratch | internal/repository/finding.go:548-570 | after any run of inserts and refreshes the family edges are the canonical pairs of all related findings |
| CorrelationRuns.OrderDoesNotMatter | internal/repository/finding.go:548-570 | runs inserting the same findings in any order end with the same edges and scores |
| CorrelationRuns.EdgesAreSound | internal/repository/finding.go:683-770 | in every reachable state a family edge joins two unsuppressed findings of one batch and category, by different scanners unless it is iac, that share a secret, rule, CVE or package, or a file with lines at most 5 apart, 15 for iac |
| CorrelationRuns.EdgesExactly | internal/repository/finding.go:683-770 | in a fully refreshed run two findings have their edge if and only if they are such findings |
| CorrelationRuns.ScoresExactly | internal/repository/finding.go:772-847 | in a fully refreshed run a score is one half and one half of the share of the other scanners of its category in the batch that have such a finding, at most one, and null without any |
| CorrelationRuns.MissingLineIsZero | internal/repository/finding.go:683-750 | a finding without a line number looks for matches as if it were at line zero |
| CorrelationRuns.NotesAreKept | internal/repository/finding_analysis.go:112-133 | refreshes leave edges of other kinds alone: a pair that shares nothing has the first edge inserted for it, over every run |
| CorrelationRuns.ScoresNeverStale | internal/repository/finding.go:559-569 | at every point of a run each stored score equals the score recomputed from the current edges |
| SummaryCache.Repository.PrepareAISummary | internal/repository/finding.go:417-498 | the state after each of its branches, and the reply |
| SummaryCache.Repository.StoreAISummary | internal/repository/finding.go:500-524 | blank text is refused; otherwise cache row and all findings of the fingerprint become ready with the trimmed text |
| SummaryCache.Repository.MarkAISummaryFailed | internal/repository/finding.go:526-546 | row and findings become failed, the summary stays |
| SummaryCache.StoreReaches | internal/repository/finding.go:500-524 | a stored summary reaches every finding of its fingerprint and its cache row, and nothing else |
| SummaryCache.FailureReaches | internal/repository/finding.go:526-546 | a failure mark reaches every finding of its fingerprint, which keeps its text, and no other |
| SummaryCache.StoredIsShown | internal/repository/finding.go:417-524 | a finding looked up without a description of its own shows whatever summary is stored for its fingerprint before it is looked up again, whatever else happens |
| SummaryCache.CacheTellsStory | internal/repository/finding.go:417-546 | over every run the cache row of a fingerprint is that of a story told from the calls alone: idle, flying, down, or done with a text |
| SummaryCache.StartsExactly | internal/repository/finding.go:451-498 | a lookup starts a generation if and only if the finding has no description and the story of its fingerprint is idle or down |
| SummaryCache.LookupAnswers | internal/repository/finding.go:417-498 | in every reachable state a lookup answers, and leaves in the finding, what the story says |
| SummaryCache.ReadySummariesAgree | internal/repository/finding.go:417-546 | in every reachable state a ready finding's summary is not blank and equals its fingerprint's cached one, whose row is not pending |
| SummaryCache.SingleFlight | internal/repository/finding.go:417-546 | per fingerprint, generations started are at most one more than failures marked |
| SummaryCache.FlightsBounded | internal/repository/finding.go:417-546 | when old lookups are carried out later, between whole calls, generations are at most one more than failures marked and stale executions; the statements of one execution, of a store and of a failure mark stay together, and an execution uses the finding's current fingerprint |
| SummaryCache.InterleavedLookupsStartTwice | internal/repository/finding.go:432-498 | two lookups that both miss start two generations without a failure |
| SummaryCache.ExecuteAgreesExactly | internal/repository/finding.go:432-498 | carrying out any lookup in a state that agrees keeps the agreement if and only if it is not harmful: its summary is the cached one still, or it does not retry a failure that has a summary by now |
| SummaryCache.AgreesUnlessHarmful | internal/repository/finding.go:417-546 | over every run with old lookups carried out later, every state agrees if and only if no such execution is harmful |
| SummaryCache.InterleavedStoreGoesStale | internal/repository/finding.go:432-450 | a store between lookup and update leaves a ready finding with the older summary |
| SummaryCache.InterleavedRetryForgets | internal/repository/finding.go:449-470 | a store between a failed lookup and its retry leaves a cache row that is pending with the stored summary, which breaks the agreement |
| TokenBucket.Limiter.Run | internal/ratelimit/bucket.go:27-64 | decision, tokens reported, and the stored key; a denial writes nothing; other keys are untouched |
| TokenBucket.Limiter.AllowN | internal/ratelimit/bucket.go:109-128 | panic on a negative cost, zero is free, a Redis error denies, otherwise the script on whole seconds |
| TokenBucket.TokensInRange | internal/ratelimit/bucket.go:38-60 | for costs up to the capacity the stored tokens stay between zero and the capacity, whatever the clock does |
| TokenBucket.FreshBucketAdmitsAnything | internal/ratelimit/bucket.go:38-44 | a fresh bucket admits any cost and leaves the range exactly above the capacity |
| TokenBucket.FullAfterFillTime | internal/ratelimit/bucket.go:42-53 | after ceil(capacity / rate) idle seconds a bucket is full |
| TokenBucket.ExpiryUnobservable | internal/ratelimit/bucket.go:38-63 | every decision and token count is that of a bucket whose key never expires, while the client's clock lags no more than is tolerated |
| TokenBucket.OneMillisecondMoreIsObservable | internal/ratelimit/bucket.go:42-60 | in every configuration one millisecond more than the tolerated lag lets the expired key admit what the bucket does not have |
| TokenBucket.LagToleratedExactly | internal/ratelimit/bucket.go:38-63 | in every configuration, and for every factor in the expiry, it is hidden in all runs within a lag if and only if the lag is tolerated: for the script's two up to the fill time and a millisecond, for one up to that millisecond |
| TokenBucket.LazyRefillUnobservable | internal/ratelimit/bucket.go:46-63 | on a clock that does not go back decisions and counts are those of a bucket that writes its refill back on denial |
| TokenBucket.RateBound | internal/ratelimit/bucket.go:34-63 | within the tolerated lag, in any window the admitted cost is at most the capacity plus the rate times the client clock's forward movement, whichever way that clock moves |
| TokenBucket.RateBoundExactly | internal/ratelimit/bucket.go:34-63 | in every configuration that bound holds in all runs within a lag if and only if the lag is tolerated |
| TokenBucket.AdmittedExactly | internal/ratelimit/bucket.go:34-63 | within the tolerated lag, on a client clock that does not go back, a request is admitted if and only if its cost keeps the rate bound in every window that ends with it |
| TokenBucket.RemainingIsSpendable | internal/ratelimit/bucket.go:109-128 | the number of tokens reported is the greatest cost that would be admitted next in the same second |
| TokenBucket.ForwardRateBound | internal/ratelimit/bucket.go:109-128 | within that lag and on a client clock that does not go back, at most the capacity plus the rate times the elapsed seconds |
| TokenBucket.RealTimeRateBound | internal/ratelimit/bucket.go:117-120 | over real time, cutting the clock to seconds costs at most one second more |
| Versions.FirstDifference | internal/threats/matcher.go:173-208 | the loop returns the comparison of the first position that differs |
| Versions.CompareAntisymmetric | internal/threats/matcher.go:173-208 | on all strings exchanging the sides changes the sign and a version equals itself |
| Versions.NumericOrder | internal/threats/matcher.go:173-208 | on numeric versions the result is the lexicographic order of zero-padded number sequences |
| Versions.ChainsUnlessMisplaced | internal/threats/matcher.go:190-205 | for one segment transitivity fails if and only if a text lies between two numbers that are not in that order as numbers |
| Versions.TransitiveExactly | internal/threats/matcher.go:173-208 | for versions two comparisons give the third, strictly if one is strict, if and only if at the first position deciding one of them no text is so placed, or the outer two draw there and differ the right way later |
| Versions.TransitiveUnlessMixed | internal/threats/matcher.go:173-208 | in particular, transitive, strictly so, when no position mixes numbers with text |
| Versions.MixedSegmentsCycle | internal/threats/matcher.go:190-205 | 10 < 1a < 2 < 10 |
| Versions.DotZeroIgnored | internal/threats/matcher.go:167-208 | appending ".0" changes no comparison |
| Versions.LeadingVIgnored | internal/threats/matcher.go:211-214 | a leading v or V does not matter |
| Versions.BuildIgnored | internal/threats/matcher.go:215-217 | build metadata does not matter |
| Versions.FieldsOfJoin | internal/threats/matcher.go:218-220 | splitting undoes joining segments with dots |
| Versions.SplitNormalForm | internal/threats/matcher.go:218-220 | no segment is empty or holds a separator, and which separators stood between them does not matter |
| AffectedVersions.VersionInEvents | internal/threats/matcher.go:143-165 | the loop over the events computes the two flags |
| AffectedVersions.AcceptsOneInterval | internal/threats/matcher.go:143-165 | accepted exactly when there are no bounds, or at or above the last introduced and below every fixed from there on |
| AffectedVersions.AffectedIsConvex | internal/threats/matcher.go:143-165 | on numeric versions what lies between two accepted versions is accepted |
| AffectedVersions.OsvRelation | internal/threats/matcher.go:139-165 | on every sorted list with an introduced bound: accepted exactly when vulnerable by the OSV evaluation and at or above the last introduced bound |
| AffectedVersions.OneIntroducedAgrees | internal/threats/matcher.go:139-165 | on every sorted list with one introduced bound the code is the OSV evaluation |
| AffectedVersions.OneIntroducedExactly | internal/threats/matcher.go:139-165 | on a list in any order with one introduced bound: the code is the OSV evaluation of the sorted list on all numeric versions if and only if the fixed bounds listed after the introduced one end the interval where those sorted after it do |
| AffectedVersions.PlacedAlikeAgrees | internal/threats/matcher.go:139-165 | in particular, and for every version, when the fixed bounds listed after the introduced one are those sorted after it |
| AffectedVersions.FixesAreAbove | internal/threats/matcher.go:139-165 | and those sorted after it are the ones above it as versions, and maybe some equal to it |
| AffectedVersions.UnsortedDiffers | internal/threats/matcher.go:139-165 | a list where the fix comes first and the code accepts a version that OSV does not find |
| AffectedVersions.TwoIntroducedDiffer | internal/threats/matcher.go:139-165 | a sorted list with two where OSV finds a version the code does not accept |
| AffectedVersions.DepInAffectedRanges | internal/threats/matcher.go:108-137 | true exactly when the dependency has an entry of its ecosystem, case folded, and name, in lower case, and some range of its entries accepts or they have no range |
| AffectedVersions.UnboundedAccepts | internal/threats/matcher.go:139-142 | a range without bounds trusts the server |
| OsvQuery.ChunkDeps | internal/threats/osv.go:173-183 | the loop produces the chunks |
| OsvQuery.ChunksExact | internal/threats/osv.go:172-183 | the chunks in order are the input, none is empty, all but the last are full |
| OsvQuery.QueryBatchIndexed | internal/threats/osv.go:236-263 | answers aligned with the chunk: what the server leaves out is empty, what it adds is ignored |
| OsvQuery.Dedupe | internal/threats/osv.go:186-200 | the loop keeps first occurrences |
| OsvQuery.UniqueExact | internal/threats/osv.go:185-200 | exactly the non-empty ids, each once, ordered by first occurrence |
| OsvQuery.FlattenIds | internal/threats/osv.go:164-170 | the id lists in order |
| OsvQuery.Hydrate | internal/threats/osv.go:288-315 | whatever order requests complete in, the result is a permutation of the records that could be fetched |
| OsvQuery.IndexExact | internal/threats/osv.go:144-148 | the map by id does not depend on that order when records keep their ids |
| OsvQuery.RenamedRecordsRace | internal/threats/osv.go:144-148 | for every server and ids, the map is the same for every order of completion if and only if no two fetched records share an id and differ |
| OsvQuery.IndexById | internal/threats/osv.go:144-148 | of records with one id the last is kept |
| OsvQuery.AnyErrorFails | internal/threats/osv.go:134-141 | the call fails exactly when some batch fails |
| OsvQuery.ChunksDoNotMatter | internal/threats/osv.go:134-141 | for a pointwise server neither chunk size nor short replies show |
| OsvQuery.QueryBatchWithDeps | internal/threats/osv.go:122-161 | in dependency order, the records of each dependency's own ids |
| OsvQuery.BatchedEqualsOneAtATime | internal/threats/osv.go:115-161 | the batched query is the flat map of asking for each queryable dependency alone |
| OsvQuery.HitsExactly | internal/threats/osv.go:115-161 | a hit is found if and only if its dependency was asked about, has a name, a version and a known ecosystem, and its advisory is the record of an id the server gives for these |
| OsvQuery.RequestsWithinLimit | internal/threats/osv.go:172-183 | no request is empty or has more than a thousand queries |
| OsvQuery.FirstHitsAreRecords | internal/threats/osv.go:96-114 | keeping first hits by advisory id gives the records of the distinct ids in order of first mention |
| OsvQuery.QueryAdvisories | internal/threats/osv.go:91-114 | the answer is those records, or an error exactly when a batch fails |
| Reconcile.KeyInjective | internal/repository/threats.go:317-322 | joining with NUL is injective where Postgres can store the parts |
| Reconcile.PromoteExactly | internal/threats/track2.go:24-59 | a level is promoted exactly when both are among L0 to L4 and the new one does not come before the old one as text |
| Reconcile.ThreatRepo.LoadPrior | internal/repository/threats.go:235-253 | rows may come in any order; each entry comes from a row with its key |
| Reconcile.ThreatRepo.ReconcileHits | internal/repository/threats.go:229-315 | the loop, its rows, its reports, and the error that ends it |
| Reconcile.UpsertKeepsUnique | internal/repository/threats.go:288-299 | the upsert keeps the unique index |
| Reconcile.UpsertLookup | internal/repository/threats.go:288-299 | it sets the row of its own full key, evidence kept when none is given, and leaves all other keys |
| Reconcile.ResubmittingAddsRow | internal/repository/threats.go:288-299 | submitting a stored hit again adds a row exactly when a package field is empty |
| Reconcile.NullRowIsAdded | internal/repository/threats.go:288-299 | a hit with an empty package field is stored as a row of its own, whatever is stored |
| Reconcile.ListedIsLinked | internal/repository/threats.go:235-253 | the loaded map agrees with the table on every full key |
| Reconcile.CallAtKey | internal/repository/threats.go:255-315 | what a call stores and reports for a key depends on that key's row and hits only |
| Reconcile.FailureEnds | internal/repository/threats.go:298-300 | nothing after a failing hit is written |
| Reconcile.CallFailsExactly | internal/repository/threats.go:255-300 | for every list a call fails if and only if the statement fails for one of its hits, or the database refuses it: an unknown advisory, inventory or verdict, a NUL, or an unknown level for a key not seen before |
| ReconcileRuns.ReportsAreChanges | internal/repository/threats.go:301-312 | the reported statuses are the submitted ones with consecutive repeats removed |
| ReconcileRuns.RuntimeIsHighest | internal/threats/track2.go:46-59 | the stored runtime level is the highest of the stored and submitted levels |
| ReconcileRuns.RunReportsChanges | internal/repository/threats.go:220-315 | over any run of calls, for every full key: reports are the changes, and the level is the highest ever submitted |
| ReconcileRuns.RunAtKey | internal/repository/threats.go:220-315 | where one call ends and the next begins does not show |
| ReconcileRuns.RunStoresLast | internal/repository/threats.go:220-299 | over any run the row of a key holds the statuses of the last hit submitted for it, "declared" and "unconfirmed" for empty ones, and the last evidence given |
| ReconcileRuns.ReportsCarryRows | internal/repository/threats.go:301-312 | whatever is reported for a key is one of its hits with the statuses its row has after it |
| ReconcileRuns.CallReportsChanges | internal/repository/threats.go:255-312 | for every key, empty package fields included, a succeeding call reports the changes against the status it read |
| ReconcileRuns.RepeatReportsNothing | internal/tasks/threatintel.go:226-238 | repeating a sync reports nothing for a key exactly when its hits in the list carry the same statuses |
| ReconcileRuns.RepeatAtKey | internal/repository/threats.go:301-312 | the same for one row and its hits |
| ReconcileRuns.FailureKeepsPrefix | internal/repository/threats.go:298-300 | a failing call stores exactly the hits before the one that failed |
| ReconcileRuns.RetryReports | internal/repository/threats.go:298-300 | after a failure a succeeding retry reports its changes against the hits stored and not reported |
| ReconcileRuns.UnbrokenReportsNews | internal/repository/threats.go:301-312 | a call that does not fail reports a key whose hits agree if and only if their status is news |
| ReconcileRuns.FailureSwallowsReports | internal/repository/threats.go:298-300 | after a failure the retry reports it if and only if, besides, none of its hits had been stored |
| ReconcileRuns.NewsIsLost | internal/repository/threats.go:298-300 | every new hit that is stored before its call fails is such news, reported by neither call |
| Vulnerabilities.LinkOneConserves | internal/repository/vulnerability_new.go:20-42 | linking an unlinked finding keeps every count, coverage and severity in step with the linked findings |
| Vulnerabilities.LinkOneCounts | internal/repository/vulnerability_new.go:401-425 | however the two statements for a finding end, a count is the number linked plus the number of links lost |
| Vulnerabilities.NormalizeSeverity | internal/tasks/scan_run.go:397-406 | the five severities are kept and any other text becomes info |
| Vulnerabilities.TextOrderIsNotSeverity | internal/repository/vulnerability_new.go:31 | the least severity as text is the most severe if and only if there is a critical or high one, or one only |
| Vulnerabilities.LowReplacesMedium | internal/repository/vulnerability_new.go:31 | a lower severity replacing a higher one |
| Backfill.VulnerabilityRepo.SelectUnlinked | internal/repository/vulnerability_new.go:338-380 | the oldest unlinked findings, at most the limit |
| Backfill.VulnerabilityRepo.LinkFinding | internal/repository/vulnerability_new.go:385-430 | one turn of the inner loop, with each way it can skip or fail |
| Backfill.VulnerabilityRepo.InsertAndLink | internal/tasks/scan_run.go:788-832 | a scanned finding is inserted, counted and linked |
| Backfill.VulnerabilityRepo.LinkBatch | internal/repository/vulnerability_new.go:385-430 | the number linked is the drop in unlinked findings |
| Backfill.VulnerabilityRepo.BackfillVulnerabilities | internal/repository/vulnerability_new.go:332-455 | terminates whatever fails, a query included; old links stay; returns the number newly linked; what it did is a sequential run, which unless a query failed ends with a round of the oldest unlinked findings that was short or linked none; exact outcome when nothing fails |
| Backfill.RoundProgress | internal/repository/vulnerability_new.go:337-444 | a round moves the boundary below which everything linkable is linked |
| Backfill.Finished | internal/repository/vulnerability_new.go:432-445 | on exit a finding is linked if and only if it can be and fewer than 500 older unlinked ones cannot |
| Backfill.FewBlockersMeansAll | internal/repository/vulnerability_new.go:432-445 | with fewer than 500 unlinkable findings everything linkable is linked |
| Backfill.CountIsLinkedAndLost | internal/tasks/scan_run.go:788-832 | through every sequential run, failures included, a count is the number of findings linked plus the number of links that failed after their upsert |
| Backfill.CountsAreConserved | internal/tasks/scan_run.go:788-832 | a row's existence, count, coverage and severity are those of its linked findings if and only if no such link failed |
| Backfill.LostForGood | internal/repository/vulnerability_new.go:419-425 | nothing that follows repairs the count, a later successful link included |
| Backfill.StoredSeverityIsWorst | internal/repository/vulnerability_new.go:31 | through every sequential run without such a failure the stored severity is the worst linked one if and only if there is a critical or high one, or one only |
| Backfill.SharedExactly | internal/repository/vulnerability_new.go:385-430 | through every sequential run two linked findings share their vulnerability if and only if they are of one project and their details have one uid |
| Backfill.ScanLinks | internal/tasks/scan_run.go:788-832 | a scanned finding whose statements succeed is linked if and only if its scanner has a category, the category an engine, and its details a uid |
| Backfill.CompleteLinks | internal/repository/vulnerability_new.go:332-455 | when nothing fails a backfill links a finding if and only if it is such a finding and fewer than 500 older unlinked ones are not |
| EventHub.Hub.OnRegister | internal/events/events.go:130-150 | refused at the cap with its channel closed, else registered; never closes a closed channel |
| EventHub.Hub.OnUnregister | internal/events/events.go:152-158 | closes and removes a registered client, else nothing |
| EventHub.Hub.DispatchToClients | internal/events/events.go:168-193 | in whatever order clients are visited, exactly the matching ones with room get the event; EventStreams.EveryEntitledEvent says which those are |
| EventHub.StepKeepsInv | internal/events/events.go:127-193 | every step keeps channels of registered clients open and distinct, buffers bounded, users capped |
| EventHub.HubIsSafe | internal/events/events.go:127-193 | over every interleaving no channel is closed twice or sent to after close, and no user has more than five clients |
| EventHub.PanicsExactly | internal/events/events.go:127-193 | a step of the model panics if and only if it closes, or sends on, a channel that is not open |
| EventHub.BroadcastIsFiltered | internal/events/events.go:232-238 | a broadcast changes a client's channel if and only if the client wants the event and has room, and then by that event |
| EventHub.StepKeepsNoLeak | internal/events/events.go:127-164 | from a state where every open channel is a registered client's a step leaks one if and only if it replaces a registered client |
| EventHub.ReusedIdLeaks | internal/events/events.go:149 | replacing a registered client leaves its channel open and unreferenced |
| EventHub.LeakStays | internal/events/events.go:127-164 | an open unreferenced channel stays so under every possible step |
| EventStreams.HubRefinesQueues | internal/events/events.go:127-220 | whatever the others do, a client's channel is a bounded queue of its own |
| EventStreams.StreamInOrder | internal/events/events.go:168-193 | what a client got or has buffered is the wanted events in order with as many left out as were dropped |
| EventStreams.StreamDispatch | internal/events/events.go:182-191 | a wanted event is dropped exactly when fifty are buffered |
| EventStreams.OnlyEntitledEvents | internal/events/events.go:168-220 | under every interleaving a client's channel, and what was taken from it, hold only dispatched events of its user or of nobody, of its project or of none, of a kind it subscribed to |
| EventStreams.EveryEntitledEvent | internal/events/events.go:168-220 | and such an event is put at its end if and only if the client has not been unregistered and has fewer than fifty waiting |
| EventStreams.RefusedExactly | internal/events/events.go:130-150 | over every run a registration is refused if and only if its user has five registered clients, each of which signed up and has not been unregistered since |
| EventStreams.LeaksExactlyOnReuse | internal/events/events.go:127-164 | over every possible run no channel has leaked if and only if every registration of a registered id was refused |
| EventStreams.LeaksForGood | internal/events/events.go:127-164 | a leaked channel stays open and unreferenced through every continuation |
| EventStreams.OpenWhileRegistered | internal/events/events.go:127-164 | over every run without such a registration the open channels are exactly those of registered clients |
| EventStreams.OvertakenUnregisterStays | internal/events/events.go:266-282 | a client whose unregistration overtakes its registration stays registered |
| GlobLike.GlobToLike | internal/repository/projects.go:151-168 | the loop writes the translation |
| GlobLike.LikeIsGlob | internal/repository/projects.go:149-168 | for every pattern without a backslash LIKE on the translation is the glob, for every text and case folding |
| GlobLike.MeaningKeptUnlessBackslash | internal/repository/projects.go:149-168 | the translation keeps the meaning of a pattern if and only if it has no backslash |
| GlobLike.LikePatternFor | internal/repository/projects.go:108-124 | the three branches build the translation of one glob |
| GlobLike.SelectsWhatIsMeant | internal/repository/projects.go:96-135 | a text is selected exactly when the URL, the GitHub path or a suffix matches the pattern |

## Left out

- HTTP handlers, the frontend, notifications, AI providers, scanner execution, parsers of scanner output and cryptography: no invariant of their own. SHA-256 fingerprints and vulnerability uids are function parameters.
- The meaning of SQL inside a migration, and what a failed CREATE INDEX CONCURRENTLY leaves behind; nested block comments and E'' strings, which the splitter does not know.
- Globbing and sorting the embedded migration files: the file list is given in order.
- Correlation refreshes that interleave inside their steps, and scans that change between two refreshes of a batch; database errors inside a refresh.
- Lua's floating point: tokens are reals.
- OSV's `last_affected` and `limit` events, which the code does not read; "0" as an introduced bound is the version 0.
- An AllowN call whose script ran although its reply was lost.
- CorrelationRuns.OrderDoesNotMatter: the scanner categories and the batch's scans are the same in both runs.
- OsvQuery.BatchedEqualsOneAtATime: needs a server that answers a query alike in every batch, and says nothing about JSON, HTTP or the 32 MB body limit.
- `Match`, `MatchQueryHits` and `buildHit`: filters over the predicates modelled here.
- Rows of an empty package field in `ReconcileHits`: what one call adds and reports for them is proved, the lemmas about runs of calls are about keys whose fields are both given.
- Invalid JSON evidence and lost connections in `ReconcileHits` are one oracle, `broken`.
- Backfill.VulnerabilityRepo.BackfillVulnerabilities: the order of findings created at the same instant is fixed here, a row that cannot be read ends the loop like a failing query, and the confidence recalculation after the loop is left out.
- Backfill.CountsAreConserved: is about sequential runs; a backfill that overlaps a scan is left out.
- Event hub: the queues between publishers and the goroutine are covered by taking every interleaving; Redis fan-out is left out, and eventual removal of a cancelled client is not claimed.
- EventStreams.HubRefinesQueues: from acceptance on, with no other registration of the same id.
- Collations other than by code point, and ILIKE's locale: case folding is a parameter.
