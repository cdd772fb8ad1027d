# Platfarm: verified models of its stateful core

Platfarm is a set of small Go services over Postgres with an auth base. This project
models, in Dafny, the parts of it that carry state, protocols or arithmetic worth
proving, and proves what they are for. `dafny verify dfyconfig.toml` checks everything.

| file | what it models |
|---|---|
| `Json.dfy`, `Rules.dfy` | svc-data: documents, dotted paths, extraction rules, index entries |
| `Filter.dfy`, `Query.dfy` | svc-data: the filter language and its compiler to parameterised SQL |
| `Store.dfy` | svc-data: records, index, deliveries and the handlers that change them |
| `Projection.dfy`, `ProjectionHeap.dfy` | svc-data: field projection, as a law on values and as in-place writes over shared maps |
| `Tokens.dfy`, `AuthServer.dfy` | auth: token issue, refresh, revocation, user updates |
| `RateLimiter.dfy` | auth: the registration limiter |
| `Outbox.dfy`, `Scheduler.dfy` | svc-jobs, svc-notify: outbox workers, retries, cron scheduler |
| `Cleanup.dfy` | svc-vision: retention and capacity eviction |
| `Cidr.dfy` | svc-vision: address arithmetic and the two CIDR sweeps |
| `MediaToken.dfy` | svc-vision: the media token printer and parser |
| `Migrations.dfy` | the migration runner, with replicas |
| `Prelude.dfy` | options, results, splitting and joining, powers of two |

Where the source changes state, the model is a class or a method over arrays whose
contract ties the new state to a specification function or step relation; the laws are
proved about those, over all inputs, all reachable states or all runs. Beside them stand
laws that spell the outcome out without those functions, with the literal limits, texts
and relations (`Store.FoundByNumber`, `Store.PurgeKeepsExactly`, `Query.BeforeByNumber`,
`Tokens.EndsExactly`, `Outbox.CommitSets`).

## What turned out not to hold, and exactly when it does

- A filter is not always split at its leftmost operator: a value that contains an
  operator of higher priority makes the whole spec refused. `Filter.ParseFilter` is
  exact; `Filter.PrintThenParse` says which conditions survive printing.
- A user update is two statements, role and status first and the tenant second, and cuts
  the user's tokens off only after both. One that ends with an error in between (a
  `tenantId` beyond the column's 32 bits, a client that goes away) or after a statement
  that took effect leaves tokens that carry the old role accepted. In memory accepted
  tokens are current in a run if and only if no update of a user who holds an accepted
  token passes its guards and ends like that after writing a change
  (`Tokens.CoherentInEveryRun`, `Tokens.TornUpdateWitness`). Such tokens were issued
  before the change and since the latest cutoff (`Tokens.StaleIsTorn`) and stay accepted
  exactly until they expire, are revoked, or that user is cut off again
  (`Tokens.AcceptedUntil`).
- With Redis cutoffs are whole seconds, so a token issued earlier in the second of its
  user's cutoff is still accepted, and besides those above no other stale token is
  (`Tokens.AcceptedIsCurrentUpToTheSecond`, `Tokens.StaleTokenWitness`).
- In memory the cutoff keeps nanoseconds while tokens carry whole seconds, so a login in
  the second of a cutoff (a password reset, then a login at once) gets tokens that are
  never accepted (`Tokens.FreshPairAcceptedIff`, `Tokens.LoginRightAfterReset`,
  `Tokens.LoginRightAfterResetWitness`).
- In memory, and when the count query works, the last-admin count refuses an actor whose
  token is current exactly the demotion, as the only active admin, of an admin who is
  already inactive. It protects an active admin only from an actor left with a stale
  token by an update that ended half-way (`Tokens.LastAdminRefusalIff`,
  `Tokens.LastAdminRefusalHappens`, `Tokens.TornUpdateWitness`), with Redis also from one
  whose token was issued in the second of the cutoff (`Tokens.CountProtectsWithRedis`).
  A count query that fails reads as 0 and refuses.
- Revocations and cutoffs kept in memory do not survive a restart of the process, the
  signing key does: a restart brings back exactly the unexpired tokens that were revoked
  or cut off (`Tokens.RestartBringsBack`).
- A pause runs from the start of the transaction in which the delivery failed, since that is
  what `now()` means there, not from the failure (`Outbox.CommitSets`). So a job dies in a
  batch that begins no earlier than 2^max - 2 minutes after the beginning of the batch of
  its first failure, a notification no earlier than 15 (`Outbox.DeadNoEarlier`).
- The job backoff is exact for every retry if and only if `max_attempts` is at most 28
  (`Outbox.NoOverflowIff`).
- The scheduler decides by its own clock and stamps by the database's. No instant is
  fired for twice if and only if every firing has an instant and all but the last are
  stamped at or after theirs (`Scheduler.DistinctIffReached`); a database clock that lags
  over-fires (`Scheduler.LaggingClockOverFires`). An expression for which the cron library
  finds no instant (`0 0 30 2 *`) is accepted when the schedule is created; the library
  answers with the zero time, so it fires at every tick (`Scheduler.FiresAtEveryTick`).
- Replaying a fully written batch without a delivery id is harmless under every pattern of
  failures if and only if its items with the same key carry the same payload
  (`Store.ReplayHarmlessIff`, with a witness in `Store.ReplayMayRestoreOlder`).
- The index is what a rebuild from scratch would make it only while the dataset's records
  are under the rules in force: from a creation without records or a committed reindex on,
  exactly until new rules are stored over records, a delete stops between rows and
  records, or the dataset goes (`Store.UnderRulesWhile`, `Store.RebuildRemovesLeftovers`).
- A purge is three separate statements. One that stops after the first leaves index rows
  without a record; they are exactly the rows of the records it deleted, no query sees
  them, and the next purge or reindex of the dataset removes them
  (`Store.StoppedPurgeLeavesRows`, `Store.OrphansComeFromPurges`, `Store.LeftoversGo`).
- The total reported with a page is 0 when the page lies past the end of a non-empty
  answer, and right otherwise (`Query.TotalIsRightIff`).
- Both address loops end if and only if the prefix is not empty (`Cidr.LoopEndsIff`).
- A script whose version was seen before is silently skipped, so every script runs if
  and only if each has a version of its own (`Migrations.EveryScriptRunsIff`).
- A media token parses back if and only if neither name nor role contains `|` and it has
  not expired (`MediaToken.MakeThenParse`). With `|` two users can share a token
  (`MediaToken.TokensDiffer`).

## Model

| member | source | states |
|---|---|---|
| Rules.ValidateRules | services/svc-data/rules.go:25-46 | accepts exactly the rule lists whose modes and paths are complete and whose fields are distinct; otherwise names the first offending rule |
| Rules.RefusedIff | services/svc-data/rules.go:25-46 | spelt out, what makes a list refused: a missing field or path, an unknown mode, an array rule without a key path, two rules for a field |
| Rules.ExtractEntries | services/svc-data/rules.go:56-99 | the loops over rules and array elements produce the entries of the specification, in order, and nothing for a payload that is no document |
| Rules.ScalarRow | services/svc-data/rules.go:84-131 | spelt out: a number at a scalar rule's path is indexed as that number, a non-empty text as that text, a boolean as `true` or `false`, anything else not at all |
| Rules.ArrayRow | services/svc-data/rules.go:62-131 | likewise the value at the value path of the last array element with a key, an empty cell when there is none to be had |
| Rules.NoArrayRow | services/svc-data/rules.go:62-83 | no row for a key that no element has |
| Rules.NoRuleNoRow | services/svc-data/rules.go:56-61 | no row for a field without a rule or a payload that is no object |
| Rules.LastWinsAppend | services/svc-data/db.go:205-215 | inserting one list of entries after another overwrites key by key |
| Rules.ArrayRowsMeanElements | services/svc-data/rules.go:66-87 | after last-wins insertion a key holds the cell of the last array element with that key |
| Rules.RowsMeanDocument | services/svc-data/rules.go:56-99 | a record has a row exactly when the one rule for that field reads that cell off the document, stated without entries or tables |
| Rules.RuleOrderIrrelevant | services/svc-data/rules.go:25-46 | reordering a validated rule list changes no row of any record |
| JsonDoc.Walk | services/svc-data/rules.go:101-115 | the loop over path segments reads the value at the dotted path, null when the path leaves the document |
| JsonDoc.PathSteps | services/svc-data/rules.go:101-115 | a path is read key by key, cut at the dots |
| Filter.ParseFilter | services/svc-data/query.go:58-84 | the search by operator priority accepts exactly the leftmost split with the longest operator there, unless an operator of higher priority occurs anywhere |
| Filter.PriorityIsPosition | services/svc-data/query.go:58-84 | the scan by priority and the split by position give the same answer on every text |
| Filter.ScanIsLeftmost | services/svc-data/query.go:66-73 | where the priority scan stops relative to the first operator character, in every case |
| Filter.PreemptedWitness | services/svc-data/query.go:58-84 | `a=b>=c` has a leftmost split and is refused |
| Filter.PrintThenParse | services/svc-data/query.go:58-84 | printing then parsing is the identity exactly when the text holds no operator of higher priority |
| Filter.PlainPrintThenParse | services/svc-data/query.go:58-84 | in particular for every condition whose value has no operator character |
| Filter.PlainSpec | services/svc-data/query.go:58-84 | spelt out: `field op value` and `field.key op value` are read as they stand |
| Query.ArgList.Bind | services/svc-data/query.go:86-90 | the placeholder handed out denotes the appended argument |
| Query.ValueSql | services/svc-data/query.go:95-105 | the comparison is true on a row, for these and all longer argument lists, exactly when the cell matches; NULL never matches |
| Query.NumberMatches | services/svc-data/query.go:95-105 | an indexed number matches a numeric value exactly in the relation the operator names |
| Query.TextMatches | services/svc-data/query.go:95-105 | an indexed text matches by equality, and by the text order only a value that is no number |
| JsonDoc.NumericOrder | services/svc-data/query.go:95-105 | the order of SQL numbers, with the infinities and not-a-number last |
| Query.CondSql | services/svc-data/query.go:86-108 | the EXISTS is true exactly when some own row with the field and key has a matching value, and later appends never rebind its placeholders |
| Query.SqlCompares | services/svc-data/query.go:95-105 | the evaluator compares numbers, instants and texts as SQL does, unknown on NULL |
| Query.ThreeValued | services/svc-data/query.go:161-163 | and connects conditions as SQL does |
| Query.JoinedIsAll | services/svc-data/query.go:161-163 | in three-valued logic the joined clause is true exactly when every conjunct is |
| Query.AlternativesIsAny | services/svc-data/query.go:148-160 | the `or` group is true exactly when some alternative is |
| Query.CompileFixed | services/svc-data/query.go:111-137 | dataset, primary key and `since` conditions mean what they say; refused exactly on a missing dataset or bad time |
| Query.CompileSpecs | services/svc-data/query.go:138-160 | one condition for each spec, each with its meaning, refused exactly when a spec does not parse |
| Query.CompileOrder | services/svc-data/query.go:171-186 | for every path that parses, `path:desc` orders descending on its field and key, `path:asc` and the plain path ascending; refused when the path does not parse |
| Query.MeaningsAreWanted | services/svc-data/query.go:126-163 | the list of meanings of the conjuncts is the request: every `f`, and some `or` if there are any |
| Query.CompileRequest | services/svc-data/query.go:126-192 | on every index the compiled query, with its final arguments, selects exactly the wanted records and puts them in the order asked for (NULL placement and key tie-break included), with the page's limit and offset; refused exactly on malformed requests |
| Query.PageIsTheWindow | services/svc-data/query.go:163-192 | whatever answer the database gives, the page holds exactly the wanted rows whose rank lies in the window of offset and limit |
| Query.PageInOrder | services/svc-data/query.go:171-192 | the rows of the page come in the order asked for |
| Query.BeforeByNumber | services/svc-data/query.go:171-192 | spelt out, that order: sorted by a path the smaller number first, with `:desc` the larger; a record without a row last, with `:desc` first; ties by primary key |
| Query.BeforeByTime | services/svc-data/query.go:171 | without a sort the newest first, ties by primary key |
| Query.PageSortedByNumber | services/svc-data/query.go:171-192 | so on every page of every answer |
| Query.PageLength | services/svc-data/query.go:163-170 | a page starts at the offset asked for and is as long as asked for up to 200, else 50, or to the end of the answer |
| Query.AnswerExists | services/svc-data/query.go:187-192 | there is such an answer for every table |
| Query.TotalIsRightIff | services/svc-data/query.go:187-219 | the reported total is the number of wanted rows exactly when the page is not past the end of a non-empty answer |
| Store.StepKeepsConsistent | services/svc-data/admin.go:50-226 | each create, edit, reindex, purge, delete and ingest, also a purge or delete that stops between its statements, keeps: each record's rows are the last-wins extraction of its payload under the rules of its latest upsert or reindex (none after an unfinished delete took them), and a row without a record is what an unfinished purge left |
| Store.ReachableConsistent | services/svc-data/db.go:182-255 | so in every reachable state |
| Store.OrphanRowsIff | services/svc-data/db.go:318-328 | the rows without a record are exactly those extracted from what an orphan held |
| Store.OrphansComeFromPurges | services/svc-data/db.go:318-328 | in every run an orphan was deleted as expired by a purge that stopped after its first statement, and is untouched since |
| Store.NoRowLacksARecord | services/svc-data/db.go:318-328 | in a run whose purges all get past their second statement no row lacks a record |
| Store.StoppedPurgeLeavesRows | services/svc-data/db.go:318-328 | a purge that stops after its first statement leaves every row of the records it deleted |
| Store.LeftoversGo | services/svc-data/db.go:217-334 | the next purge past its second statement, or reindex, leaves no row of the dataset without a record |
| Store.UnderRulesStep | services/svc-data/admin.go:91-226 | once every record of a dataset was built under the rules in force, a handler ends that exactly when it stores other rules over records, removes the dataset, or is a delete that stops after the rows |
| Store.UnderRulesWhile | services/svc-data/admin.go:91-226 | the same over every run, in both directions |
| Store.HowToSettle | services/svc-data/admin.go:50-89 | a creation that succeeds where there are no records puts a dataset under its rules, and a reindex of it is one that does |
| Store.SettledUnderRules | services/svc-data/db.go:182-255 | since a creation without records or a committed reindex, and nothing of that kind after it, every record is under the rules in force |
| Store.RebuildRemovesLeftovers | services/svc-data/db.go:182-255 | then a reindex from scratch changes the index exactly when rows without a record were left over, whatever upserts, in whatever order, came before |
| Store.IndexDetermined | services/svc-data/db.go:182-255 | and two such runs that end with the same rules and payloads of the dataset, without leftovers, have the same index rows of it |
| Store.RebuildChangesNothingIff | services/svc-data/db.go:217-255 | a reindex changes the index exactly when the current rules extract something else from some record, or rows were left over |
| Store.SatisfiesMeansDocument | services/svc-data/query.go:86-108 | a filter holds through the index exactly when it holds of the document |
| Store.SelectedIffDocumentWanted | services/svc-data/query.go:126-192 | end to end: in every reachable state a query that means the request, as the compiler's does, selects a record exactly when its document is what was asked for |
| Store.FoundByNumber | services/svc-data/query.go:86-192 | end to end, spelt out, over runs: `field op text` selects a record with number x at the field's scalar path exactly when x stands in that relation to the number of the text |
| Store.FoundByText | services/svc-data/query.go:86-192 | the same for a text there |
| Store.FoundByKey | services/svc-data/query.go:86-192 | the same for `field.key op text` and the last array element with that key |
| Store.PageOfDocuments | services/svc-data/query.go:126-192 | the page holds a record exactly when its document was asked for and its rank lies in the window |
| Store.Database.HandleRecords | services/svc-data/query.go:111-192 | the compiler's own query, on the tables as they are: refused exactly when unreadable, otherwise selecting exactly the records whose documents are wanted, with the page of those in the window |
| Store.DeliveryStep | services/svc-data/db.go:257-277 | no handler overwrites a delivery that is kept |
| Store.ReplayById | services/svc-data/ingest.go:70-80 | over runs: while the delivery id is retained, a later retry changes nothing and gets the first answer, whatever it carries and whatever handlers ran in between, unless the dataset is unknown or disabled by then or the signature is bad |
| Store.ReplayWithoutId | services/svc-data/ingest.go:81-103 | a retry without an id that fails where the first run failed leaves payloads and index as they were |
| Store.ReplayHarmlessIff | services/svc-data/ingest.go:81-103 | after a batch was written in full, replaying it leaves payloads and index alone under every pattern of failures exactly when items with the same key carry the same payload |
| Store.ReplayMayRestoreOlder | services/svc-data/ingest.go:81-103 | a replay that fails where the first run did not brings back an overwritten payload |
| Store.Tally | services/svc-data/ingest.go:81-103 | accepted plus rejected is the number of items |
| Store.TallyReports | services/svc-data/ingest.go:81-103 | the items not rejected are those with a key that were written; the rejections name, in order, the items without a key and the keys refused |
| Store.IngestStores | services/svc-data/ingest.go:81-119 | spelt out: a key ends with payload, time and rows of the last written item that has it, a text or printed number at the key path, else as it was |
| Store.IngestAnswers | services/svc-data/ingest.go:56-103 | the answer to an ingest in every case, and which delivery it records |
| Store.IngestSparesOthers | services/svc-data/ingest.go:81-103 | other datasets are left alone |
| Store.PurgeKeepsExactly | services/svc-data/db.go:314-336 | spelt out: of the dataset exactly the records changed no longer ago than the retention in days stay, and the deliveries likewise once it finishes; other datasets keep theirs |
| Store.NewerOutlives | services/svc-data/db.go:318-320 | a record outlives every purge that a record of its dataset changed earlier outlives |
| Store.DeleteRemoves | services/svc-data/admin.go:207-226 | spelt out: rows, records and dataset of this id and no other, as far as the delete gets |
| Store.ReindexBuilds | services/svc-data/db.go:217-255 | spelt out: the rows of the current rules for each record, and everything else as before |
| Store.CreatedSettings | services/svc-data/admin.go:50-89 | a created dataset is enabled, keyed by `id` and kept for ever unless told otherwise |
| Store.EditedSettings | services/svc-data/admin.go:91-137 | an edit takes what is given and keeps what is not |
| Store.Database.InsertIndexEntries | services/svc-data/db.go:205-215 | the insert loop leaves the last cell of each key and touches no other record |
| Store.Database.UpsertRecord | services/svc-data/db.go:182-203 | the record is overwritten and its rows rebuilt, or nothing changes |
| Store.Database.ReindexDataset | services/svc-data/db.go:217-255 | every record of the dataset gets the rows of the current rules, other datasets keep theirs, and the records are counted |
| Store.Database.PurgeExpired | services/svc-data/db.go:314-336 | exactly the expired records, the rows left without a record and the expired deliveries of the dataset go, or the first of these when a statement fails |
| Store.Database.HandleCreate | services/svc-data/admin.go:50-89 | stores the dataset, with the defaults for absent fields, exactly when its rules are valid and the id is new |
| Store.Database.HandleEdit | services/svc-data/admin.go:91-137 | replaces the dataset, absent fields keeping their stored values, exactly when its rules are valid and it exists; no index row changes |
| Store.Database.HandleReindex | services/svc-data/admin.go:151-164 | is the reindex step and keeps consistency |
| Store.Database.HandlePurge | services/svc-data/admin.go:166-180 | is the purge step, finished or stopped after any statement, and keeps consistency; succeeds exactly when it finished |
| Store.Database.HandleDelete | services/svc-data/admin.go:207-226 | is the delete step, finished or stopped after any statement, and keeps consistency; data is emptied even if the dataset is unknown |
| Store.Database.HandleIngest | services/svc-data/ingest.go:53-103 | is the ingest step: each key ends with the payload and rows of its last accepted item, other keys untouched, the result recorded under the delivery id unless one is there or the write fails |
| Store.Database.SaveDelivery | services/svc-data/db.go:268-277 | the first result under a delivery id stays; a failed write is passed over |
| Store.Database.WriteItems | services/svc-data/ingest.go:81-103 | the item loop, one transaction each, one failing not stopping the others |
| Projection.ProjectFields | services/svc-data/query.go:222-243 | folding path writes gives the sub-document defined by recursion on the document |
| Projection.LivePathAdded | services/svc-data/query.go:245-258 | writing a live path's value into the projection is projecting with that path added |
| Projection.DeadPathIgnored | services/svc-data/query.go:232-234 | a path to nothing or null changes nothing |
| Projection.RequestedReadsSame | services/svc-data/query.go:222-243 | each requested path with a non-null value reads as in the document |
| Projection.AskedIsReturned | services/svc-data/query.go:228-236 | spelt out: a path to a value, with white space around it, is answered with that value |
| Projection.BlanksAskNothing | services/svc-data/query.go:229-233 | white space alone asks for nothing |
| Projection.WhiteSpace | services/svc-data/query.go:230 | what is trimmed, by code point |
| Projection.ProjectionIsSubDocument | services/svc-data/query.go:222-243 | the projection is a sub-document |
| Projection.NothingElseReads | services/svc-data/query.go:222-243 | whatever can be read in it lies below, or on the way to, a requested path |
| Projection.ReadsInDocument | services/svc-data/query.go:222-243 | nothing reads non-null that was not in the document |
| Projection.ProjectionIdempotent | services/svc-data/query.go:222-243 | projecting twice is projecting once |
| Projection.RequestOrderIrrelevant | services/svc-data/query.go:222-243 | order and repetition of the paths do not matter |
| ProjectionHeap.SetPath | services/svc-data/query.go:245-258 | writing a path over shared maps extends the shape of the result by that path, and leaves every map of the document as it was even when the way leads into it |
| ProjectionHeap.ShapedIsRestricted | services/svc-data/query.go:245-258 | maps of that shape represent the sub-document |
| ProjectionHeap.OnlyLiveMatter | services/svc-data/query.go:232-234 | leaving out the paths to nothing gives the same sub-document |
| ProjectionHeap.ProjectFields | services/svc-data/query.go:222-243 | in place: the result represents the sub-document at the requested paths and the document is unchanged |
| Tokens.ReachableInv | platform/auth/token.go:45-114 | in every run of handlers, user updates that end half-way included, the invariant of tokens, revocations and users holds: a user token is current, or was issued before its user's latest cutoff or latest change without one |
| Tokens.ForgettingIsSafe | platform/auth/redisstore.go:32-111 | the janitor and the expiring keys never change an acceptance decision |
| Tokens.StaleIsTorn | platform/auth/token.go:92-114 | in memory an accepted token that is not current was issued since the latest cutoff and before a change no cutoff followed |
| Tokens.TearingIff | platform/auth/users.go:110-176 | in memory a handler makes some accepted token stale exactly when it is a user update that passes its guards and ends with an error after writing a change of a user who holds an accepted token |
| Tokens.CoherentInEveryRun | platform/auth/users.go:110-176 | in memory, in every run and after each handler, every accepted user token carries its user's current role and tenant and the user is active, exactly when no handler was such an update |
| Tokens.CurrentBetweenHandlers | platform/auth/token.go:92-114 | and it stays so until the next handler |
| Tokens.TornUpdateWitness | platform/auth/users.go:159-169 | a run from the start in which a demoted admin's token is still accepted as an admin's, and the count keeps it from demoting the last active admin |
| Tokens.AcceptedUntil | platform/auth/redisstore.go:32-95 | in memory an accepted token stays accepted exactly until it expires, is revoked, or its user is cut off |
| Tokens.AcceptedIsCurrentUpToTheSecond | platform/auth/redisstore.go:66-95 | with Redis an accepted token that is not current was issued before a change no cutoff followed or in the second of the cutoff; an outdated token is accepted exactly in the latter case |
| Tokens.StaleTokenWitness | platform/auth/redisstore.go:66-95 | such a token exists, in a run from the start |
| Tokens.RefusedForever | platform/auth/token.go:92-114 | a token once refused is never accepted again in any run |
| Tokens.EndsExactly | platform/auth/main.go:233-294 | for every handler and every token: what was accepted is accepted after it exactly when the handler was not to end it, where that is spelt out per handler |
| Tokens.EndedForever | platform/auth/token.go:92-114 | over every run, what a handler ends is accepted in no later state |
| Tokens.LoggedOutForever | platform/auth/main.go:279-294 | a logout ends for good the access token it came with, and the other token when accepted and the same user's |
| Tokens.OnlyAdminsAct | platform/auth/users.go:237-249 | a request whose actor is not an accepted admin's access token changes nothing |
| Tokens.PairIs | platform/auth/token.go:45-69 | a pair is an access token of two hours and a refresh token of thirty days with the user's role and tenant, in whole seconds |
| Tokens.ServiceTokenIs | platform/auth/token.go:72-80 | a service token lasts five minutes |
| Tokens.IssuesPairIff | platform/auth/main.go:233-277 | which handlers issue a pair, and when |
| Tokens.UpdateAnswers | platform/auth/users.go:110-150 | spelt out, which answer a user update gets |
| Tokens.UpdateWrites | platform/auth/users.go:151-169 | what an update without an error makes of the row |
| Tokens.TornUpdateWrites | platform/auth/users.go:159-169 | what one that ends with an error leaves of it, without a cutoff |
| Tokens.CutoffIs | platform/auth/redisstore.go:64-78 | a cutoff is now, with Redis in whole seconds and for thirty days |
| Tokens.JanitorForgets | platform/auth/redisstore.go:97-111 | the janitor drops exactly the revocations of expired tokens |
| Tokens.NewUserRow | platform/auth/users.go:80-108 | the row of a created and of a registered user |
| Tokens.RefreshAtMostOnce | platform/auth/main.go:259-277 | each refresh token succeeds at most once in any run |
| Tokens.AlwaysAnActiveAdmin | platform/auth/users.go:80-176 | an active admin always remains and no admin demotes or disables themself |
| Tokens.LastAdminRefusalIff | platform/auth/users.go:132-150 | in memory, for current and stale actors and a failing count, which updates are refused as taking the last admin, in both directions; an active admin is protected only from a stale actor |
| Tokens.LastAdminRefusalHappens | platform/auth/users.go:132-150 | such a refusal, in a run from the start |
| Tokens.CountProtectsWithRedis | platform/auth/users.go:132-150 | with Redis the count refuses the demotion of the last active admin by a stale token, in a run from the start |
| Tokens.FreshPairAcceptedIff | platform/auth/token.go:92-114 | a pair just issued is accepted exactly when its user has no cutoff later than the second of issue; always so with Redis |
| Tokens.LoginRightAfterReset | platform/auth/users.go:178-202 | in every run, tokens from a login in the second of a password reset are never accepted in memory |
| Tokens.LoginRightAfterResetWitness | platform/auth/users.go:178-202 | a run from the start in which that happens |
| Tokens.RestartBringsBack | platform/auth/main.go:80-83 | a restart makes exactly the unexpired tokens acceptable again that were revoked or cut off in memory |
| AuthServer.Server.Revoke | platform/auth/redisstore.go:32-49 | is the revocation of the model, skipping expired tokens |
| AuthServer.Server.RevokeUserTokens | platform/auth/redisstore.go:64-78 | sets the cutoff, whole-second and expiring with Redis |
| AuthServer.Server.Parse | platform/auth/token.go:92-114 | accepts exactly the genuine, unexpired, unrevoked tokens not older than the cutoff |
| AuthServer.Server.JanitorTick | platform/auth/redisstore.go:97-111 | the deletion loop drops exactly the entries of expired tokens |
| AuthServer.Server.IssuePair | platform/auth/token.go:158-172 | issues and returns an access and a refresh token, in this order, with fresh ids and the user's current role and tenant |
| AuthServer.Server.HandleLogin | platform/auth/main.go:233-257 | is the login step, and returns the pair it issued |
| AuthServer.Server.HandleRefresh | platform/auth/main.go:259-277 | is the refresh step; succeeds exactly for an accepted refresh token of an active user |
| AuthServer.Server.HandleLogout | platform/auth/main.go:279-294 | is the logout step: ends the token at hand and the same user's other one, and leaves every other token accepted or refused as it was |
| AuthServer.Server.CheckUpdate | platform/auth/users.go:111-150 | the guards in their order, with a count query that may fail |
| AuthServer.Server.HandleUsersCreate | platform/auth/users.go:80-108 | is the creation step; nothing happens when the name is taken or the actor is no admin |
| AuthServer.Server.HandleUsersReset | platform/auth/users.go:178-202 | cuts the user off exactly when the actor is an admin and the user exists |
| AuthServer.Server.HandleChangePassword | platform/auth/users.go:204-235 | ends the token at hand and no other, only with the right old password |
| AuthServer.Server.HandleUsersUpdate | platform/auth/users.go:110-176 | is the user update step: which changes cut tokens off, and that an error of either statement ends it without a cutoff |
| AuthServer.Server.ApplyUpdate | platform/auth/users.go:152-174 | writes role and status, then the tenant, then the cutoff, stopping at the first error whether or not that statement took effect |
| AuthServer.Server.HandleRegister | platform/auth/account.go:29-64 | adds an active user and issues a pair, or stops in between when the user cannot be read back |
| AuthServer.Server.HandleSetPassword | platform/auth/account.go:108-134 | cuts the user off exactly for an accepted, allowed service token and a known user |
| AuthServer.Server.HandleTenantsUpdate | platform/auth/tenants.go:62-108 | sets the status of a known tenant for an admin and, unless it is the active one, cuts off those of its users whose rows can be read |
| RateLimiter.SlidingWindow | platform/auth/ratelimit.go:25-42 | in every run no half-open hour holds more than 10 accepted requests, and a refusal means exactly 10 in the last hour |
| RateLimiter.TenAnHour | platform/auth/ratelimit.go:11-42 | in numbers: any eleven accepted requests in a row span an hour, and a refusal means exactly that the tenth last accepted one is less than an hour ago |
| RateLimiter.RequestKeepsGood | platform/auth/ratelimit.go:25-42 | forgetting old hits keeps the recent past complete |
| RateLimiter.Limiter.Allow | platform/auth/ratelimit.go:25-42 | decision and new contents of the address, other addresses untouched although slices are reused |
| RateLimiter.CompactNewer | platform/auth/ratelimit.go:29-35 | compaction over the same backing array is the plain filter |
| Outbox.BackoffExactIff | services/svc-jobs/worker.go:86-89 | the int64 pause is 2^n minutes exactly up to n = 27 |
| Outbox.NoOverflowIff | services/svc-jobs/worker.go:77-90 | every retry is exact if and only if max_attempts is at most 28 |
| Outbox.CommitSets | services/svc-jobs/worker.go:76-95 | spelt out, each row after a commit: delivered; or one attempt more and dead; or one attempt more and due 2^(a+1) minutes after the start of the batch, 2^a for a notification, with `a` failures before |
| Outbox.NotTakenBefore | services/svc-jobs/worker.go:55-90 | over runs, no batch takes a row before its pause is over |
| Outbox.DeadNoEarlier | services/svc-notify/worker.go:39-95 | over runs, a dead item died in a batch that began no earlier than all its pauses, 2^max - 2 minutes or 15, after the one of its first failure |
| Outbox.TotalWaitWhenAllFail | services/svc-notify/worker.go:67-89 | the pauses as computed add up to 2^max - 2 minutes for a job, 15 for a notification |
| Outbox.StepKeepsInv | services/svc-jobs/worker.go:48-96 | each claim, delivery, commit and abort keeps exclusiveness, the attempt bounds and the account of every call |
| Outbox.ReachableInv | services/svc-jobs/worker.go:48-96 | so in every interleaving of any number of workers |
| Outbox.DeliveryGuarantees | services/svc-jobs/worker.go:48-96 | pending has attempts left, dead has none, delivered was delivered; successes are at most 1 plus the aborted batches, calls at most the bound plus the aborted batches |
| Outbox.HeldByAtMostOne | services/svc-jobs/worker.go:55-61 | no item is held by two workers |
| Outbox.FinalForever | services/svc-jobs/worker.go:48-96 | done and dead rows never change again |
| Outbox.CommitSpends | services/svc-jobs/worker.go:77-96 | each committed outcome uses up at least one remaining attempt |
| Outbox.ClaimTakes | services/svc-jobs/worker.go:55-61 | spelt out: at most ten rows, pending, due and held by nobody, lowest ids first and none left out |
| Outbox.ClaimExists | services/svc-jobs/worker.go:55-61 | there is always such a batch, of as many rows as may be claimed up to ten |
| Outbox.HistoryCounts | services/svc-jobs/worker.go:76-95 | the calls, successes and roll-backs in these results are the number of such steps in the run |
| Outbox.NewRow | services/svc-jobs/main.go:128-160 | a new row is pending with the bound asked for, 5 if none or a notification |
| Outbox.Queue.DeliverBatch | services/svc-jobs/worker.go:48-96 | the loop settles each claimed row, or a rollback leaves the table |
| Scheduler.NeverOverFires | services/svc-jobs/worker.go:172-229 | whatever the pauses, the disabling and the two clocks: while there are instants and firings are stamped at or after them, at most as many jobs as instants since creation |
| Scheduler.EveryNeverOverFires | services/svc-jobs/worker.go:172-229 | for `@every`, under the same condition, at most as many jobs as delays since creation |
| Scheduler.FiresAtEveryTick | services/svc-jobs/worker.go:197-203 | a schedule fires at most once for each tick that finds it enabled, and exactly that often when its expression has no instant |
| Scheduler.FiringsAre | services/svc-jobs/worker.go:172-229 | every job of a schedule stands for the first instant after the stamp of the one before, or for none when the library finds none |
| Scheduler.IncreasingIffReached | services/svc-jobs/worker.go:172-229 | over every run and any clocks, successive firings are for later and later instants exactly when each has an instant and all but the last are stamped at or after theirs |
| Scheduler.DistinctIffReached | services/svc-jobs/worker.go:172-229 | while the database clock does not run backwards, that is exactly when no instant is fired for twice |
| Scheduler.LaggingClockOverFires | services/svc-jobs/worker.go:172-229 | a run in which a lagging database clock makes two jobs for the one instant that passed |
| Scheduler.BacklogCollapses | services/svc-jobs/worker.go:172-229 | from any point of a run the schedule stays quiet exactly until an enabled tick reads the first instant after the last stamp, so missed instants make one job |
| Scheduler.Scheduler.RunSchedules | services/svc-jobs/worker.go:172-229 | each enabled schedule is ticked once, or left alone when refused or after the round ended |
| Scheduler.Scheduler.Fire | services/svc-jobs/worker.go:208-226 | one job and one stamp, counted once |
| Cleanup.SortedIsSort | services/svc-vision/internal/storage/service.go:280-282 | oldest first, the same files, none repeated |
| Cleanup.SortedIsStable | services/svc-vision/internal/storage/service.go:280-282 | a file stays before a later one that is not older |
| Cleanup.ExpiringSparesProtected | services/svc-vision/internal/storage/service.go:258-269 | retention removes exactly the deletable files past the cutoff outside the protect window |
| Cleanup.ExpiresExactly | services/svc-vision/internal/storage/service.go:256-269 | spelt out, with the ten minutes |
| Cleanup.EvictedMeans | services/svc-vision/internal/storage/service.go:280-302 | eviction spelt out: what an evicted file is like, what must go with it, in which order, and that it went while over the limit |
| Cleanup.ExpireOld | services/svc-vision/internal/storage/service.go:256-270 | the retention loop |
| Cleanup.Evict | services/svc-vision/internal/storage/service.go:283-304 | removes only unprotected files still there, oldest first, each while over the limit; ends within the limit or with nothing left that may go; counts the bytes freed |
| Cleanup.CleanUp | services/svc-vision/internal/storage/service.go:251-304 | the whole pass: no file twice, freed bytes are the sizes deleted and never more than there was |
| Cleanup.EnforceMaxStorage | services/svc-vision/internal/storage/service.go:410-456 | takes the shortest prefix of recordings that brings the use within the limit, or all; orphans only after that |
| Cleanup.RowsDeletedAre | services/svc-vision/internal/storage/service.go:435-447 | the rows counted are those that could be deleted, each once |
| Cidr.IncIp | services/svc-vision/pkg/onvif/client.go:767-774 | the carry loop in place is the increment of the specification |
| Cidr.IncAddsOne | services/svc-vision/pkg/onvif/client.go:767-774 | which adds one modulo the size of the address space |
| Cidr.ByteBlock | services/svc-vision/pkg/onvif/client.go:776-783 | one masked byte: network byte, broadcast byte and mask test as an interval |
| Cidr.AndOrSum | services/svc-vision/pkg/onvif/client.go:776-783 | the bitwise operations: conjunction and disjunction add up to both arguments |
| Cidr.NetworkIsBlock | services/svc-vision/pkg/onvif/client.go:776-783 | network and broadcast are the ends of the aligned block around the address, and the mask test is membership in it |
| Cidr.FloorIsMultiple | services/svc-vision/pkg/onvif/client.go:776-783 | the network number is the multiple of the block size at or below the address |
| Cidr.Discover | services/svc-vision/pkg/onvif/client.go:117-138 | ends, and visits exactly the addresses strictly between network and broadcast, ascending, once each |
| Cidr.SweepCidr | services/svc-vision/pkg/onvif/client.go:1024-1047 | the same for the copying loop |
| Cidr.Slash24 | services/svc-vision/pkg/onvif/client.go:117-138 | for example the 254 hosts of an IPv4 /24 |
| Cidr.LoopEndsIff | services/svc-vision/pkg/onvif/client.go:1030-1047 | an address outside is ever reached if and only if the prefix is not empty |
| MediaToken.EncodeThenDecode | services/svc-vision/internal/api/server.go:375-396 | the unpadded base64url codec is inverse and its text has no dot |
| MediaToken.EncodesBits | services/svc-vision/internal/api/server.go:375-381 | the codec spelt out: which letters one, two and three bytes become |
| MediaToken.Alphabet | services/svc-vision/internal/api/server.go:375-381 | the alphabet of section 5 of RFC 4648 |
| MediaToken.PrintThenParse | services/svc-vision/internal/api/server.go:376-402 | decimal printing and parsing are inverse on int64 |
| MediaToken.PrintsDecimal | services/svc-vision/internal/api/server.go:376-378 | the text is decimal |
| MediaToken.MakeThenParse | services/svc-vision/internal/api/server.go:375-407 | the exact outcome of parsing a made token, for all users, roles, expiries and times |
| MediaToken.MakeIs | services/svc-vision/internal/api/server.go:375-381 | the token spelt out, with bars and dot |
| MediaToken.AcceptedIsSigned | services/svc-vision/internal/api/server.go:383-407 | an accepted token carries the signature of its payload, which holds the returned names and a number not yet passed |
| MediaToken.OnlyTheIssuedTokenPasses | services/svc-vision/internal/api/server.go:383-407 | over an issued payload only the issued signature passes, and only in time |
| MediaToken.TokensDiffer | services/svc-vision/internal/api/server.go:375-381 | two tokens are the same exactly when their expiry and the joined text of name, bar and role are; so without a bar in the names, only for the same name and role, while names with bars can share one |
| Migrations.StepKeepsInv | services/svc-file/migrate.go:37-70 | each lookup, execution, insert, commit and crash of any replica keeps the invariant |
| Migrations.ExactlyOnce | services/svc-file/migrate.go:19-73 | in every run of any replicas stopped anywhere: the committed scripts are a prefix of those to run, none twice, the schema is what they build, and a finished replica means all |
| Migrations.CanFinish | services/svc-file/migrate.go:19-73 | such runs exist to the end: with readable versions and no failing script some run finishes with all scripts committed |
| Migrations.CommittedSoFar | services/svc-file/migrate.go:42-69 | a replica before an unapplied script knows exactly what has been committed |
| Migrations.EveryScriptRunsIff | services/svc-file/migrate.go:38-50 | all scripts run exactly when versions are readable and distinct |
| Migrations.FirstsAre | services/svc-file/migrate.go:38-50 | the scripts to run are, in order, those with a version that no earlier script has |
| Migrations.AppliedForever | services/svc-file/migrate.go:62-69 | what is committed stays committed, in order |
| Migrations.Runner.RunMigrations | services/svc-file/migrate.go:19-73 | one run alone: success means all committed, failure at a script means exactly those before it, with the reason |

## Left out

- HTTP routing, gin wiring, request decoding, environment and key loading, consoles and UI: plumbing.
- `appCanReadDataset`, grants, app tokens (which carry no user), OAuth providers and binding external identities, svc-gitpulse, svc-ai, the notification inbox and tenant checks in svc-file: single-branch facts.
- SQL text: conditions are syntax trees with numbered parameters and a three-valued evaluator; Postgres, Redis, MinIO and WebDAV are maps and failing calls.
- Names, sources, secrets and notification settings of datasets and the names of tenants: they steer nothing modelled here.
- Number and time syntax, float formatting and text collation in svc-data are parameters; the order of SQL `numeric` is modelled.
- Decoding a payload into maps and encoding the projection again: `ProjectionHeap.ProjectFields` starts from decoded maps, `Projection.ProjectFields` has the case of a payload that is no document.
- RSA, bcrypt, HMAC and TOTP: uninterpreted; a token is genuine when it was issued here, a signature is a function of the payload.
- Handlers of auth and svc-data are atomic, on a clock that advances strictly between auth handlers; races between handlers are not claimed by the code.
- An external login is a registration or a login; the service token that internal handlers demand besides the user's is taken as given except in `HandleSetPassword`.
- Runs of the token model contain no restart of the process; `Tokens.RestartBringsBack` says what one does.
- Requests that fail before they write anything (a database that cannot be reached, bcrypt) are no steps; a password statement or a record's commit that takes effect but reports an error is taken as not done.
- Redis key life is modelled to the nanosecond, not rounded to its milliseconds; failed Redis and audit writes and failed Redis reads, which the code only logs or ignores, are taken to succeed.
- The cron library is not in the repository: it is a function from a time to the least later instant, or to none, and for `@every` the delay after the whole second; several scheduler instances are not modelled, since the scheduler takes no locks.
- Directory listing, the library's stable sort (a function here) and int64 overflow of summed file sizes in the storage pass; orphan segments enter as a count and a size.
- Parsing of CIDR text, and the standard library's special treatment of IPv4-mapped IPv6 addresses in its containment test.
- Media tokens in hexadecimal: the keyed hash is a parameter that already returns text.
- The version number in a migration's file name is given with the script; the number syntax is the library's. Locks that schema changes take only remove interleavings.
- Camera run loops, previews and ONVIF messages: process management around external programs.
