# ol_analytics_api: verified model

A Dafny model of the parts of `ol_analytics_api` whose promises range over every
run or every input, with proofs of those promises. `dafny verify dfyconfig.toml`
checks it.

**Incremental sync of learner records** (`ChangeLog`, `SyncSteps`,
`SyncCoverage`, `SyncDelivery`, `SyncAnswers`, `SyncServer`, `SyncProtocol`, with
`RefreshCaches`). Materialized views are refreshed, change logs are stamped, and
a client syncs with `updated_since` set to its last `as_of`. The queries are pure
functions over tables with nullable keys; a run is a list of actions that
interleave refreshes, stamps, what each server process has cached, and one
client's requests. The invariant `SyncCoverage.Covers` says that whatever the
client's copy lacks is either in the log at or after its cursor or waiting for
the next stamp. Convergence follows for enrollments, the roster, and both
recomputed rollups, with the exact condition under which the copy is the live
view. A request tests its cursor, takes its `as_of` and reads its rows in three
separate actions. The source awaits once per log and once per view inside the
first two; the model takes those together, which loses no run, since a process
number stands for any set of cached entries and an entry may be filled at any
time and kept: one filled before an await is one kept until after it.

**Small-cohort suppression** (`CohortPolicies`, `Anonymization`, `CrossGrain`).
Policy validation, the complement fixpoint, derived columns, and the guard that
keeps a coarse grain from publishing what a finer grain withholds.

**The JWKS cache** (`JwksCaches`, `JwksRuns`, `JwksStretches`). The object as a
class, a machine that interleaves any number of tasks, and the stretches between
two awaits, which call the object and are proved to be the machine's steps.

**The consent-gated learner queries** (`LearnerRows`, `LearnerProgress`,
`LearnerPages`, `LearnerNesting`, `NeedsAttentionTile`, with `Consent`,
`SqlLogic`, `SqlOrder`, `SqlGroups`, `LikePattern`). Three queries over one row
set, under three-valued logic.

**Sync windows** (`SyncWindows`, `IsoTime`). Rounding, tiling, and why comparing
ISO text is comparing instants.

## Hypotheses

- Sync: refreshes and stamps of one view alternate
  (`UnstampedArrivalIsNeverRemoved` shows what happens otherwise); a surrogate
  key is never reused for another identity, not even after its row left
  (`ReusedKeyLosesRemoval` shows why); a `user_pk` belongs to one learner;
  at the moment rows are read, one record is live per identity; logs are seeded
  on a whole second; one response reads one snapshot of the tables.
- Suppression: the floor is at least 1, the primary is not also a secondary, and
  no derived column shares a cohort's name. The code checks none of these.
  Counts are non-negative where the floor's promise is stated. For the guard:
  both grains come from one snapshot, the columns called additive do add up,
  and the grain's key column is not a cohort or a computed column.
- JWKS: the clock never runs backwards, and a fetch completes strictly after the
  previous successful one, because `_fetched_at` doubles as a version.
- Learner queries: rows that tie on a whole ORDER BY keep table order, where the
  database may choose. `PageOrderIsForced` shows there are no such ties when
  `(user_pk, courserun_pk)` is unique, and the learner order never ties. An
  ascending ORDER BY puts NULL first.

## Where the code and its comments differ

- `src/ol_analytics_api/core/anonymization.py:335-338` expects the loop to need
  one pass per level of nesting. One pass over the pairs always settles
  everything, and a second only finds that out (`OnePassSettles`,
  `SettledPassChangesNothing`, `SuppressedCohorts`).
- `src/ol_analytics_api/tenants/b2b_learner_records/token.py:178-180` says that no
  await separates reading the cooldown from setting it, but line 186 awaits the
  forced load. The 60-second bound holds all the same, because of the lock and
  the version test (`UnknownKidRefetchesAreAMinuteApart`).
- `src/ol_analytics_api/tenants/b2b_learner_records/queries.py:27-30` leaves out a
  re-keyed identity rather than send it twice. The query alone does not: it
  returns an identity both live and removed exactly when the identity has a NULL
  column and both halves select it (`LiveAndRemovedIff`,
  `NullLearnerIsLiveAndRemoved`), which with no stamp pending only enrollments
  can do (`OnlyEnrollmentsRepeat`). No client sees it: the response models
  refuse a NULL in an identity, so the whole response is then an error
  (`DeliveredIffNoNull`), and one that is delivered never has both
  (`NeverLiveAndRemoved`).
- `src/ol_analytics_api/tenants/b2b_dashboard/learner_models.py:289-291` says the
  four status counts and the withheld count always add up. They do exactly when
  every shared row has one of the four statuses (`StatusCountsAddUp`); a shared
  row with a NULL status is in the total only (`NullStatusIsUncounted`).
- An enrollment that is deactivated is by contract not a removal
  (`src/ol_analytics_api/tenants/b2b_learner_records/models.py:129`), so an
  active-only enrollment copy keeps it (`DeactivationIsSilent`). A sync gives the
  live view exactly when the copy it starts from holds no such enrollment
  (`SyncIsExactIff`), so a full read always does.
- `src/ol_analytics_api/tenants/b2b_learner_records/queries.py:266-273` promises that
  a row on a boundary can land in both windows. Windows inside one second can
  land it in more; `SentTwiceIff` and `SentThriceIff` say exactly when.

## Model

| member | source | states |
|---|---|---|
| SyncProtocol.SyncConverges | src/ol_analytics_api/tenants/b2b_learner_records/queries.py:15-30 | in every run, a full read or an accepted sync whose rows are read with no stamp pending leaves the client's copy with every live record and with no identity that has no row left, for all four collections; a response with a NULL identity is an error and leaves the client as it was |
| SyncProtocol.SyncIsExactIff | src/ol_analytics_api/tenants/b2b_learner_records/queries.py:15-30 | at the end of every run, a delivered read gives exactly the live view if and only if the copy it is applied to holds no enrollment since deactivated and left out; outside active-only enrollments, and for a full read, that is always so |
| SyncProtocol.CopyIsAlwaysCovered | src/ol_analytics_api/tenants/b2b_learner_records/queries.py:15-24 | in every interleaving, a record the copy lacks is in a log at or after its floored cursor, or a stamp is still to come |
| SyncProtocol.StepKeeps | src/ol_analytics_api/tenants/b2b_learner_records/routers/organizations.py:184-205 | each refresh, stamp, cache fill or expiry, and each step of a request keeps that invariant |
| SyncProtocol.ReadSettles | src/ol_analytics_api/tenants/b2b_learner_records/queries.py:356-441 | applying one answer leaves nothing outstanding but what the next stamp will notice, whether full or incremental |
| SyncAnswers.LiveViewIs | src/ol_analytics_api/tenants/b2b_learner_records/queries.py:356-441 | the live view that convergence speaks of, by columns: a record is live exactly when a stored row of the organization, the asked contract and the asked course run makes it so, and it is built from exactly those rows |
| SyncAnswers.AnswersStayInScope | src/ol_analytics_api/tenants/b2b_learner_records/queries.py:356-412 | every identity sent or removed is of the asking organization, and of the contract, course run and learners asked for |
| SyncAnswers.FullReadOfRows | src/ol_analytics_api/tenants/b2b_learner_records/queries.py:356-388 | a full read of enrollments or of the roster sends exactly the stored rows asked for, deactivated enrollments only with `include_inactive` |
| SyncAnswers.FullReadOfUsers | src/ol_analytics_api/tenants/b2b_learner_records/queries.py:499-608 | a full rollup read sends exactly the users with a row that makes them part of it, each built from exactly their rows in the organization, and under `contract_id` from that contract's enrollments alone |
| SyncAnswers.IncrementalReadIsRecent | src/ol_analytics_api/tenants/b2b_learner_records/queries.py:259-287 | an incremental read sends, and sends the same, what a full one would and a log row at or after the cursor's whole second speaks of |
| SyncAnswers.RemovalsAre | src/ol_analytics_api/tenants/b2b_learner_records/queries.py:639-681 | a removal, by columns: asked for, carried by no live row that SQL equality finds, and logged by a tombstone at or after the cursor's whole second, a learner's by tombstones only |
| SyncProtocol.SyncBeginsIff | src/ol_analytics_api/tenants/b2b_learner_records/routers/organizations.py:75-87 | a sync begins exactly with a cursor at most 90 days old and no older than the starts the process has seen of its logs |
| SyncProtocol.CursorIsStalest | src/ol_analytics_api/tenants/b2b_learner_records/routers/organizations.py:115-119 | the next cursor is the stalest refresh time held, and none exactly while a view has none |
| SyncProtocol.ReadIsExactIff | src/ol_analytics_api/tenants/b2b_learner_records/models.py:128-140 | the same for any read of a covered copy, on the copy held before it |
| SyncProtocol.DeactivationIsSilent | src/ol_analytics_api/tenants/b2b_learner_records/models.py:129-130 | an enrollment deactivated under an active-only request is neither sent nor removed, at any cursor |
| SyncProtocol.UnstampedArrivalIsNeverRemoved | src/ol_analytics_api/tenants/b2b_learner_records/queries.py:15-24 | two refreshes without a stamp between can leave a read record that no later sync removes, so alternation is needed |
| SyncProtocol.ReusedKeyLosesRemoval | src/ol_analytics_api/tenants/b2b_learner_records/queries.py:15-30 | a removal that a sync would have sent is never sent once its key is stamped for another identity, so keys must not be reused |
| SyncDelivery.DeliveredIffNoNull | src/ol_analytics_api/tenants/b2b_learner_records/routers/organizations.py:175-204 | building the rows of an answer fails exactly when some live or removed identity in it has a NULL, however the rows are sorted |
| SyncDelivery.BuiltItem | src/ol_analytics_api/tenants/b2b_learner_records/routers/organizations.py:175-204 | each item of a delivered response carries its row's identity, its record, and whether it is a removal |
| SyncDelivery.NeverLiveAndRemoved | src/ol_analytics_api/tenants/b2b_learner_records/routers/organizations.py:175-204 | a delivered response never has an identity both live and removed, whatever the tables hold |
| SyncDelivery.LiveAndRemovedIff | src/ol_analytics_api/tenants/b2b_learner_records/queries.py:304-323 | the query returns an identity both live and removed exactly when it has a NULL and each half selects it |
| SyncDelivery.OnlyEnrollmentsRepeat | src/ol_analytics_api/tenants/b2b_learner_records/queries.py:639-681 | with no stamp pending, no learner collection returns an identity both ways, NULL or not |
| SyncProtocol.AcceptedIsTracked | src/ol_analytics_api/tenants/b2b_learner_records/routers/organizations.py:131-169 | a cursor that passes both gates is no older than the creation of any log the request reads, however long ago the process cached where the logs start |
| SyncProtocol.CachedAsOfIsPast | src/ol_analytics_api/tenants/b2b_learner_records/routers/organizations.py:115-119 | whatever a process has cached, the reported `as_of` is at most every source's true refresh time |
| SyncCoverage.StampKeepsCover | src/ol_analytics_api/tenants/b2b_learner_records/queries.py:15-24 | a stamp turns every pending difference into log rows no older than any cursor a client can hold |
| SyncCoverage.RefreshKeepsCover | src/ol_analytics_api/tenants/b2b_learner_records/queries.py:21-24 | a refresh hides no difference from the next stamp |
| SyncCoverage.ResentIffLogged | src/ol_analytics_api/tenants/b2b_learner_records/queries.py:609-635 | a record is re-sent exactly when some row it is built from, deleted ones included, has a log time at or after the floored cursor |
| SyncCoverage.RemovalIffLogged | src/ol_analytics_api/tenants/b2b_learner_records/queries.py:639-681 | once every log row of an identity is a tombstone, its removal is sent exactly when one of them is recent |
| SyncCoverage.UnitIdIsRowId | src/ol_analytics_api/tenants/b2b_learner_records/queries.py:590-608 | a rollup's coalesced learner id is that of every row it is built from |
| ChangeLog.RemovalIsExact | src/ol_analytics_api/tenants/b2b_learner_records/queries.py:389-412 | any identity, NULL columns or not, is removed exactly when no live row is found to carry it, the rows that could are gone, and some tombstone is at or after the floored cursor |
| ChangeLog.NullLearnerIsLiveAndRemoved | src/ol_analytics_api/tenants/b2b_learner_records/queries.py:389-412 | a re-keyed enrollment with no learner id that the query returns both live and removed |
| SyncSteps.StampAtKey | src/ol_analytics_api/tenants/b2b_learner_records/queries.py:15-24 | under every key, a stamp re-times exactly the rows that changed, to its own floored second, and no log time moves back |
| RefreshCaches.CacheDiscipline | src/ol_analytics_api/core/db/refresh_metadata.py:65-79 | in every interleaving one view has one query out at a time, none starts within the TTL of one that succeeded, and every answer is what the last success found, less than a TTL before |
| RefreshCaches.TasksReturnWhatTheyWereServed | src/ol_analytics_api/core/db/refresh_metadata.py:65-79 | a task returns only what an event says it was served for the view it asked of, and raises only when its query failed or the entry expired between two clock readings |
| RefreshCaches.UnexpiredIsServed | src/ol_analytics_api/core/db/refresh_metadata.py:70-71 | a call while the last success is unexpired is served it at once |
| RefreshCaches.StepKeeps | src/ol_analytics_api/core/db/refresh_metadata.py:65-79 | each stretch between two awaits keeps the invariant behind that, the second test under the lock included |
| RefreshCaches.RefreshCache.Lookup | src/ol_analytics_api/core/db/refresh_metadata.py:70-71 | serves exactly the unexpired entries, and raises exactly when one expires between the membership test and the read |
| SyncServer.AsOf | src/ol_analytics_api/tenants/b2b_learner_records/routers/organizations.py:115-119 | the loop computes the stalest refresh time |
| SyncServer.StalestIsLeast | src/ol_analytics_api/tenants/b2b_learner_records/routers/organizations.py:115-119 | nothing while any view lacks a refresh, otherwise one of them and at most all |
| SyncServer.RequireCoverage | src/ol_analytics_api/tenants/b2b_learner_records/routers/organizations.py:145-169 | refuses exactly the cursors older than a log, or read against an empty one |
| CohortPolicies.Validate | src/ol_analytics_api/core/anonymization.py:110-178 | construction succeeds exactly for well-declared policies, and an otherwise well-declared one is refused exactly when its containment is cyclic |
| CohortPolicies.WalksFinishIffAcyclic | src/ol_analytics_api/core/anonymization.py:180-190 | every declared subset's walk ends if and only if no cohort contains itself at any depth |
| CohortPolicies.Ancestors | src/ol_analytics_api/core/anonymization.py:180-190 | the walk with its `seen` set as a loop |
| CohortPolicies.CheckContainment | src/ol_analytics_api/core/anonymization.py:142-155 | passes exactly when each subset is secondary and each container a cohort |
| CohortPolicies.CheckClassification | src/ol_analytics_api/core/anonymization.py:160-174 | passes exactly when each secondary cohort is classified once |
| CohortPolicies.CheckCycles | src/ol_analytics_api/core/anonymization.py:175-178 | raises exactly on cyclic containment |
| CohortPolicies.ComplementPairsAreTransitive | src/ol_analytics_api/core/anonymization.py:192-199 | the pairs are exactly each declared subset with everything it sits inside at any depth |
| Anonymization.SuppressedCohorts | src/ol_analytics_api/core/anonymization.py:327-355 | the fixpoint loop ends, indexes only present columns, and settles every pair in one pass |
| Anonymization.OnePassSettles | src/ol_analytics_api/core/anonymization.py:334-354 | after one pass over the pairs no two visible cohorts have a disclosive complement |
| Anonymization.SettledPassChangesNothing | src/ol_analytics_api/core/anonymization.py:338-354 | a further pass adds nothing |
| Anonymization.OnePassHasCauses | src/ol_analytics_api/core/anonymization.py:340-354 | whatever a pass suppresses has a disclosive complement in the raw row |
| Anonymization.GatedRowIsIndexable | src/ol_analytics_api/core/anonymization.py:347-352 | in a row that clears its gate, an unsuppressed side of a pair is present and not NULL |
| Anonymization.SuppressSmallCohorts | src/ol_analytics_api/core/anonymization.py:358-383 | the loop that keeps, drops and nulls computes the row-by-row specification |
| Anonymization.PublishedRowKeepsFloor | src/ol_analytics_api/core/anonymization.py:299-383 | every visible secondary is 0 or at least the floor, every visible (subset, ancestor) complement likewise, and a visible derived column has all its cohorts visible |
| Anonymization.PublishedCohort | src/ol_analytics_api/core/anonymization.py:358-383 | a cohort is published unchanged or not at all |
| Anonymization.SafeCountsAreShown | src/ol_analytics_api/core/anonymization.py:299-355 | a secondary count of 0 or at least the floor is published as it is, unless some cohort around it, at any depth, exceeds it by fewer than the floor |
| Anonymization.SmallCountsAreHidden | src/ol_analytics_api/core/anonymization.py:299-305 | a NULL count, or one from 1 to below the floor, is never published |
| Anonymization.OtherColumnsFollow | src/ol_analytics_api/core/anonymization.py:358-383 | a computed column is nulled exactly when a cohort it reads is, and any other column is left alone |
| Anonymization.DroppedIff | src/ol_analytics_api/core/anonymization.py:358-383 | a row is dropped exactly when its primary is NULL or below the floor |
| Anonymization.SuppressionIsIdempotent | src/ol_analytics_api/core/anonymization.py:358-383 | suppressing a published row again changes nothing |
| Anonymization.TableSuppressionIsIdempotent | src/ol_analytics_api/core/anonymization.py:358-383 | nor does suppressing a published table, and it drops no row |
| Anonymization.SuppressionCommutesWithPaging | src/ol_analytics_api/core/db/query.py:213-237 | suppressing two pieces and concatenating is suppressing the whole |
| Anonymization.PagesOfAnySizeCoverTheTable | src/ol_analytics_api/core/db/query.py:41-111 | LIMIT/OFFSET pages of any size, suppressed and concatenated, are the suppressed table, and hold as many rows as the gated COUNT says |
| Anonymization.VisibleCountIsKeptCount | src/ol_analytics_api/core/db/query.py:84-111 | the gated COUNT is the number of rows suppression keeps, NULL primaries included |
| CrossGrain.HiddenAdditiveColumns | src/ol_analytics_api/core/anonymization.py:235-296 | the dictionary of sets maps each key to exactly the columns some finer row of it leaves a hole in |
| CrossGrain.Endpoint | src/ol_analytics_api/tenants/b2b_dashboard/routers/organizations.py:264-308 | refuses a truncated scan; otherwise each suppressed row keeps its columns, NULL only where a finer row of its key leaves a hole, or, for its cohort counts, where one leaves any hole at all |
| CrossGrain.BlankingLeavesTheRest | src/ol_analytics_api/core/anonymization.py:386-428 | that is what the blanking does to any row, in terms of what the finer rows publish |
| CrossGrain.AdditiveBlankIff | src/ol_analytics_api/core/anonymization.py:401-428 | an additive column is blanked exactly when some finer row of the key is dropped or shows no value for it |
| CrossGrain.WholeKeysAreUntouched | src/ol_analytics_api/core/anonymization.py:417-428 | a row whose key has no hole is returned as suppressed |
| CrossGrain.ResponseRowsArePublished | src/ol_analytics_api/core/anonymization.py:386-428 | each response row is the published form of some row of the page |
| CrossGrain.CoarseTotalIsPublishedSum | src/ol_analytics_api/core/anonymization.py:386-428 | a published coarse total means every finer row of its key is kept and shows the column, and it is the sum of those published values |
| CrossGrain.CoarseTotalsRevealNothing | src/ol_analytics_api/core/anonymization.py:235-266 | two databases that publish the same finer rows and both publish a coarse total publish the same one |
| CrossGrain.NothingHiddenIffCovered | src/ol_analytics_api/core/anonymization.py:267-296 | an empty hidden set means every finer row shows all its cohorts if and only if there is an additive column and each cohort a computed column reads is read by an additive one |
| CrossGrain.CoarseCohortsRevealNothing | src/ol_analytics_api/core/anonymization.py:408-427 | under that condition, a published coarse cohort means every finer row of its key publishes all its cohorts, and over disjoint finer rows it is the sum of what they publish |
| CrossGrain.DisjointCohortsRevealNothing | src/ol_analytics_api/core/anonymization.py:408-427 | two databases that publish the same finer rows and both publish a coarse cohort publish the same count, where finer rows share no learners |
| CrossGrain.Classify | src/ol_analytics_api/tenants/b2b_dashboard/routers/organizations.py:140-169 | accepts exactly the partitions of the derived columns into additive and non-additive |
| CrossGrain.AllAdditiveIsCovered | src/ol_analytics_api/tenants/b2b_dashboard/routers/organizations.py:140-169 | an accepted endpoint with no non-additive column meets the covering condition |
| CrossGrain.TrendEndpointIsGuarded | src/ol_analytics_api/tenants/b2b_dashboard/routers/organizations.py:185-201 | the shipped monthly-trend endpoint meets every condition used above |
| JwksRuns.UnknownKidRefetchesAreAMinuteApart | src/ol_analytics_api/tenants/b2b_learner_records/token.py:166-196 | in every interleaving, two forced refetches that succeeded without the key id they were for are at least 60 s apart |
| JwksRuns.OneFetchAtATime | src/ol_analytics_api/tenants/b2b_learner_records/token.py:126-143 | no two tasks fetch together, and between two fetch starts one has finished |
| JwksRuns.FetchDiscipline | src/ol_analytics_api/tenants/b2b_learner_records/token.py:99-157 | no fetch starts within 5 s of a failed one, nor while the set is unexpired unless forced by a task since whose asking nothing was fetched; every load returns the latest fetched set, and none raises once a fetch has succeeded |
| JwksRuns.LoadsHaveReasons | src/ol_analytics_api/tenants/b2b_learner_records/token.py:126-157 | a load comes back without a fetch of its own only when the set is younger than the TTL, or another task fetched since this one asked, or a fetch failed less than 5 s before |
| JwksRuns.AnswersAreTrue | src/ol_analytics_api/tenants/b2b_learner_records/token.py:166-196 | an answer is what the latest set has under the key id asked, None only where it lacks it; a None comes only from the task's own forced load or less than a minute after one that missed; a forced answer rests on a set fetched since it was asked, unless fetching failed |
| JwksRuns.RefetchesAreNeeded | src/ol_analytics_api/tenants/b2b_learner_records/token.py:174-186 | a refetch is asked for only for a key id the latest set lacks, outside every cooldown |
| JwksRuns.UnknownKidWaitsForRefetch | src/ol_analytics_api/tenants/b2b_learner_records/token.py:174-186 | a call that finds a fresh set without its key id, outside every cooldown, waits for a forced load |
| JwksRuns.TasksEndWithAnswers | src/ol_analytics_api/tenants/b2b_learner_records/token.py:166-196 | every task was answered, or its load raised, or it waits for a load of the key id it was called with |
| JwksRuns.StepKeeps | src/ol_analytics_api/tenants/b2b_learner_records/token.py:126-196 | each atomic stretch of any task keeps the invariant behind these |
| JwksStretches.CallSigningKey | src/ol_analytics_api/tenants/b2b_learner_records/token.py:166-185 | what a task does on the object before its first await is the machine's Call step: same fields, same next stop, same events |
| JwksStretches.TakeTheLock | src/ol_analytics_api/tenants/b2b_learner_records/token.py:130-143 | likewise from getting the lock |
| JwksStretches.CompleteFetch | src/ol_analytics_api/tenants/b2b_learner_records/token.py:105-124 | likewise from a fetch that succeeded |
| JwksStretches.FailFetch | src/ol_analytics_api/tenants/b2b_learner_records/token.py:138-157 | likewise from a fetch that failed |
| JwksStretches.Continue | src/ol_analytics_api/tenants/b2b_learner_records/token.py:175-196 | likewise from a load's answer to the next await or the return |
| JwksCaches.JwksCache.EnterLock | src/ol_analytics_api/tenants/b2b_learner_records/token.py:130-143 | a fetch is made only past the hold-off and with the version current or the set cold or expired; otherwise the held set is returned, and it raises exactly when there is none |
| JwksCaches.JwksCache.FetchSucceeded | src/ol_analytics_api/tenants/b2b_learner_records/token.py:105-124 | a successful fetch changes the set and the version and nothing else |
| JwksCaches.JwksCache.FetchFailed | src/ol_analytics_api/tenants/b2b_learner_records/token.py:138-157 | a failed fetch only sets the hold-off, and answers with the stale set or raises |
| JwksCaches.JwksCache.AfterForcedLoad | src/ol_analytics_api/tenants/b2b_learner_records/token.py:186-196 | the cooldown starts exactly on a fresh set that lacks the key id |
| LearnerProgress.WithheldOutcomesDoNotShow | src/ol_analytics_api/tenants/b2b_dashboard/learner_queries.py:333-373 | two tables that differ only in withheld rows' outcomes give the same order, pages and counts, for every filter and sort |
| LearnerProgress.SharedOutcomesShow | src/ol_analytics_api/tenants/b2b_dashboard/learner_queries.py:315-330 | conversely, changing what a shared row that matches says of its outcomes changes some page |
| LearnerPages.WithheldOutcomesDoNotShow | src/ol_analytics_api/tenants/b2b_dashboard/learner_queries.py:385-442 | the same for the learner-paged query and its counts |
| LearnerPages.SharedOutcomesShow | src/ol_analytics_api/tenants/b2b_dashboard/learner_queries.py:385-442 | and its converse, for any active enrollment of a listed learner |
| NeedsAttentionTile.WithheldOutcomesDoNotShow | src/ol_analytics_api/tenants/b2b_dashboard/learner_queries.py:455-538 | the same for the aggregate, including which contracts have a row |
| LearnerProgress.RedactionHidesExactlyThat | src/ol_analytics_api/tenants/b2b_dashboard/learner_queries.py:315-330 | differing only in withheld columns is having the same redacted rows, both ways |
| LearnerRows.SelectedIffMeets | src/ol_analytics_api/tenants/b2b_dashboard/learner_queries.py:103-129 | the three-valued WHERE, worked out in the columns: a withheld row is selected under a status filter only through `unknown`, and under needs-attention in neither direction; attention is due from its day on |
| LearnerRows.BuildWhere | src/ol_analytics_api/tenants/b2b_dashboard/learner_queries.py:261-312 | the list that is appended to is the conjunction of the filters in use |
| LearnerRows.GateOutcomes | src/ol_analytics_api/tenants/b2b_dashboard/learner_models.py:243-248 | nulls every outcome field exactly when outcomes are not shared |
| LearnerProgress.PagesListEveryMatch | src/ol_analytics_api/tenants/b2b_dashboard/learner_queries.py:315-373 | walking the pages lists every stored row that belongs and meets the filters, as often as stored, `total_count` in all, in the order asked for; each carries the row's columns and its consent, and its outcomes and needs-attention flag exactly when the decision, or the default without one, shares them |
| LearnerProgress.OrderByIs | src/ol_analytics_api/tenants/b2b_dashboard/learner_queries.py:351-356 | the order in columns: the sorted one either way with NULLs last, then learner, then course run |
| LearnerProgress.PageOrderIsForced | src/ol_analytics_api/tenants/b2b_dashboard/learner_queries.py:351-356 | with one row per enrollment the tie-break leaves one possible order |
| LearnerProgress.SortsNullsLast | src/ol_analytics_api/tenants/b2b_dashboard/learner_queries.py:351-356 | rows without the sorted column come last in both directions, and only the others turn round |
| LearnerProgress.StatusCountsAddUp | src/ol_analytics_api/tenants/b2b_dashboard/learner_models.py:285-303 | withheld plus the four statuses never exceeds the total, and equals it exactly when each shared row has one of the four |
| LearnerProgress.NullStatusIsUncounted | src/ol_analytics_api/tenants/b2b_dashboard/learner_models.py:285-303 | a shared row with a NULL status, which the five counts miss |
| LearnerProgress.CountsForecastFilters | src/ol_analytics_api/tenants/b2b_dashboard/learner_queries.py:361-372 | each count beside a filter is the total that choosing the filter gives |
| LearnerPages.PagesCoverEveryLearner | src/ol_analytics_api/tenants/b2b_dashboard/learner_queries.py:385-442 | concatenated nested pages list each matching learner once, in directory order, `total_count` of them, each with exactly their active enrollments under the contract, carried as on the row query, by course run, under the first one's name and email |
| LearnerPages.DirectoryIsInOrder | src/ol_analytics_api/tenants/b2b_dashboard/learner_queries.py:376-382 | learners come by name with the nameless last, then by email likewise, then by id |
| LearnerPages.CountedLearnersAre | src/ol_analytics_api/tenants/b2b_dashboard/learner_queries.py:430-442 | the counts count exactly the learners with a stored row let through, or one withheld |
| LearnerPages.DirectoryListsEachMatchOnce | src/ol_analytics_api/tenants/b2b_dashboard/learner_queries.py:376-382 | the directory is strictly ordered, holds exactly the learners with a matching record, and as many as COUNT(DISTINCT) says |
| LearnerPages.LearnersSortByLeastTexts | src/ol_analytics_api/tenants/b2b_dashboard/learner_queries.py:376-382 | a learner sorts by the least name and email of their matching rows, and as nameless only when every such row is |
| LearnerPages.PageNests | src/ol_analytics_api/tenants/b2b_dashboard/learner_queries.py:418-429 | nesting a page's joined and sorted rows gives its learners, each with a whole block of rows |
| LearnerNesting.FromRows | src/ol_analytics_api/tenants/b2b_dashboard/learner_models.py:268-282 | the loop over a dictionary groups by learner in order of first appearance, whatever the adjacency of rows |
| LearnerNesting.NestBlock | src/ol_analytics_api/tenants/b2b_dashboard/learner_models.py:268-282 | a learner's adjacent rows nest to one learner, named by the first |
| NeedsAttentionTile.TileEqualsDirectory | src/ol_analytics_api/tenants/b2b_dashboard/learner_queries.py:433-442 | a contract's considered, needing and withheld counts are the directory's unfiltered total, its needs-attention total and its withheld count |
| NeedsAttentionTile.TileCountsLearners | src/ol_analytics_api/tenants/b2b_dashboard/learner_queries.py:484-511 | each count of a group counts exactly the learners with an active enrollment of the organization under that contract, of its kind |
| NeedsAttentionTile.TilesAreTheLargeContracts | src/ol_analytics_api/tenants/b2b_dashboard/learner_queries.py:512-538 | a contract has a tile exactly when its directory has at least the floor's learners, and tiles come in contract order |
| NeedsAttentionTile.GatedPagesLoseNoRow | src/ol_analytics_api/tenants/b2b_dashboard/learner_queries.py:512-538 | suppression drops no row of a gated page, and `total_count` is what the pages hold |
| NeedsAttentionTile.ShownCountsHideFewLearners | src/ol_analytics_api/tenants/b2b_dashboard/models.py:241-251 | both secondary counts are subsets of the considered learners, and a shown count leaves no group below the floor on either side |
| NeedsAttentionTile.PolicyIsUsable | src/ol_analytics_api/tenants/b2b_dashboard/models.py:241-251 | the shipped policy meets the conditions of the suppression results |
| LikePattern.PatternMatchesSubstring | src/ol_analytics_api/tenants/b2b_dashboard/learner_queries.py:226-230 | a string matches the pattern exactly when the lowered term is a substring of it |
| LikePattern.SearchIgnoresCase | src/ol_analytics_api/tenants/b2b_dashboard/learner_queries.py:226-230 | the search finds its text wherever it stands, in either case of A to Z |
| LikePattern.ReplacementsEscapeOnce | src/ol_analytics_api/tenants/b2b_dashboard/learner_queries.py:226-230 | the three replacements in turn escape each character once |
| Consent.RollupIsLeast | src/ol_analytics_api/tenants/b2b_learner_records/queries.py:98-102 | the grouped decision is the least under declined, undecided, consented, so order and grouping do not matter |
| Consent.RollupSharesIffAllShare | src/ol_analytics_api/core/consent.py:35-41 | a rollup shares outcomes exactly when each decision it covers would |
| Consent.MergeIsMeet | src/ol_analytics_api/tenants/b2b_learner_records/queries.py:556-561 | merging the two views takes the more conservative of the sides present |
| Consent.SharingIsMonotone | src/ol_analytics_api/core/consent.py:26-41 | more consent or failing open never shares less, and a recorded decision wins |
| SyncWindows.WindowPredicates | src/ol_analytics_api/tenants/b2b_learner_records/queries.py:259-287 | on text or DATETIME columns the predicates select exactly floor(since) <= t < ceil(before), never a NULL under a bound; only the calendar's last second overflows |
| SyncWindows.WholeSecondRounds | src/ol_analytics_api/tenants/b2b_learner_records/queries.py:192-216 | lower bounds floor and upper bounds ceil |
| SyncWindows.NextSecondIsOneLater | src/ol_analytics_api/tenants/b2b_learner_records/queries.py:214-216 | adding a second carries correctly through days, months and leap years |
| SyncWindows.EveryChangeIsInSomeWindow | src/ol_analytics_api/tenants/b2b_learner_records/queries.py:266-273 | abutting windows of any length drop no change in their span |
| SyncWindows.OnlyNeighboursOverlap | src/ol_analytics_api/tenants/b2b_learner_records/queries.py:266-273 | windows of at least a second re-send a change only to the next window, within the second their bound cuts |
| SyncWindows.SentTwiceIff | src/ol_analytics_api/tenants/b2b_learner_records/queries.py:266-273 | two windows can re-send one change exactly when the later starts in a second that the earlier ends in |
| SyncWindows.SentThriceIff | src/ol_analytics_api/tenants/b2b_learner_records/queries.py:266-273 | some change, in the span or not, is sent more than twice exactly when a window with one on each side lies in a second it does not start |
| SyncWindows.NoChangeIsInThreeWindows | src/ol_analytics_api/tenants/b2b_learner_records/queries.py:266-273 | so windows of at least a second never send a change more than twice |
| SyncWindows.ShortWindowsOverlapMore | src/ol_analytics_api/tenants/b2b_learner_records/queries.py:266-273 | three shorter windows that all match one change |
| IsoTime.TextOrderIsTimeOrder | src/ol_analytics_api/tenants/b2b_learner_records/queries.py:192-221 | a stored text with any number of fraction digits compares with a whole-second bound as the instants do |
| IsoTime.FractionalBoundsMisorder | src/ol_analytics_api/tenants/b2b_learner_records/queries.py:195-201 | a bound with a fraction would not compare so |
| IsoTime.FieldOrderIsTimeOrder | src/ol_analytics_api/tenants/b2b_learner_records/queries.py:195-205 | comparing calendar fields in turn is comparing instants |
| IsoTime.IsoTextReads | src/ol_analytics_api/tenants/b2b_learner_records/queries.py:219-221 | the text has each field where ISO 8601 puts it |
| IsoTime.YearsAreGregorian | src/ol_analytics_api/tenants/b2b_learner_records/queries.py:192-216 | the calendar's leap years are the Gregorian ones |

## Left out

- HTTP, routing, error bodies, pools, TLS, Vault, logging and telemetry: plumbing without a property of this kind.
- SQL text assembly and identifier validation: queries are modelled by what they mean.
- JWT signature and claim checks: a key set is a lookup by key id; decoding is the library's.
- `JWKSCache.clear` is a test hook, and task cancellation inside a fetch is not modelled.
- The 64-entry bound of the refresh-time cache, which could drop an entry early, and task cancellation during its query.
- Recreating a change log by hand: the run model's logs keep their rows, so a cached start is never from before a recreation.
- A NULL in a required column other than the identity, which also makes a response an error.
- `completion_status`, `updated_before` and offset paging inside one sync: a sync reads one unpaged snapshot with the org, contract, course-run and learner filters.
- The arithmetic of rollup columns: a record is the set of rows it is built from, and any column is a function of those; decisions and learner ids are the exceptions modelled.
- The `courses` collection, which has no change log.
- Row hashes in the stamp job are taken to tell different rows apart; purging old tombstones is not part of this model.
- `core/db/query.py`'s existence check and grain-scan text; the scan's limit is modelled.
- Sums of additive columns and cohort counts are integers; rates are carried as integers that suppression keeps or nulls.
- Lower-casing covers A to Z; other alphabets and the database collation are not part of this model. Text is ordered by code point.
- `_date_literal`: today's date is a parameter.
- The eleven outcome columns besides the completion status are one sequence of nullable integers; course titles, dates and modes are projected like the columns kept and are omitted.
- LearnerRows.GateOutcomes: models setting attributes by name in a loop as clearing an array.
- CrossGrain.CoarseCohortsRevealNothing: the sum is stated for finer rows that share no learners; otherwise a coarse distinct count is not a function of finer counts at all.
