# PostgreSQL to Trino gateway: a verified model

The gateway speaks the PostgreSQL wire protocol to its clients and sends their SQL to Trino.
This project models the parts of it whose correctness is not visible from any one function:
the SQL rewriter, cancellation, the portal cache, the paging of results, statement batches, and
the conversions between Trino's and PostgreSQL's spelling of types, times, numbers, errors and
object ids. `dafny verify dfyconfig.toml` checks all of it.

## What is proved

* **The rewriter keeps meaning.** `SqlSemantics` says what a query means to an engine; operators,
  joins, grouping and sorting are parameters the two engines share. `RewritePreservesMeaning`: for
  every query of any nesting, what Trino computes for the output of the four visitors is what
  PostgreSQL computes for the input, row for row. The conditions, `NameOk` and `FitsQ`, are on the names
  called and on the values the nodes have where the evaluation reaches them. Those on escapes, ANY, casts,
  quoted names and row counts have an exact lemma and a failing input each; the remaining one, that the
  function called is known, only marks the functions about which the relation between the engines says
  something. It cannot be met for `string_agg`: Trino's grammar demands WITHIN GROUP on `listagg`, which no
  `string_agg` call has. `RelatedEngineExists` shows that the relation is not empty, and
  `CheckedStatementsKeepMeaning` has conditions that can be read off the statement. `RewriteSql` promises
  all of it of the statement it prints, commands included.
* **The visitors form an algebra.** Running one after the other is the same as one walk with both
  sets of actions, although the second also walks the nodes the first one made. So the pipeline is
  one walk, the visitors commute, and rewriting twice is rewriting once. Nothing the visitors look for
  is left at any depth, and every query of the output is the visited form of one of the input.
* **Cancellation is safe and works.** A state machine over all interleavings of connections, queries,
  streams and three-step cancel requests. Every cancel that is sent names a query submitted under its
  own key; an id is never read again once its polled stream has ended; and a running query can be
  cancelled from its submission on, whatever other connections do. A disconnect ends its key and nothing
  else, and every id a request reads is sent once or still to be sent.
* **The portal cache refines running the bound statement**, delivers every response at most once and
  never one older than the last Execute of its portal, and its pipeline runs are accounted for exactly.
* **Paging conserves rows**: eager phase and stream together give every row of every page before the
  first failing one, once and in order, wherever the columns show up; stated by the data of the pages
  and by index.
* **Error texts keep what they should**: which characters of a message reach the client, and that hosts
  and stack frames do not, with the exact conditions.
* **Round trips and exactness** for timetz, fractional seconds, integers, type names and
  synthetic OIDs.

Code that updates things step by step is modelled by methods and classes (`Gateway`, `Connection`,
the visitors, the loops) proved against functions; the theorems are about those functions.

## Where the code falls short of what it promises

Each of these is stated as a lemma with its exact condition, and shown on an input.

* `LIKE` without `ESCAPE` escapes with a backslash in PostgreSQL and not at all in Trino; the rewriter
  passes it on as it is, and so `ILIKE` (`EscapeMattersExactlyWhenUsed`, `UnescapedILikeExactly`;
  `DefaultEscapeFails`, `DefaultEscapeFailsILike`).
* An escape in front of a character that is neither a wildcard nor the escape is fine in PostgreSQL and an
  error in Trino (`TrinoReadsExactly`, `ILikeRewriteExactlyWhenStrict`; `EscapedLetterFails`).
* An escape character with a case breaks the ILIKE rewrite (`ILikeRewriteExactlyWhenCaseless`,
  `ILikeRewriteFails`).
* `ANY` of `ILIKE ANY` is dropped, which turns answers into errors (`DroppedAnyExactly`, `DroppedAnyFails`);
  `LIKE ANY` is passed on, and Trino has none (`PassedAnyExactly`, `PassedAnyFails`).
* The renamer ignores quotes, so a quoted name with upper-case letters is taken for another function
  (`NamesFollowExactlyWhenFoldSafe`, `QuotedNameFails`).
* Only the outermost type name of a cast is normalised (`CastKeptExactly`, `LeftoverTypeFails`).
* Trino takes only literals of digits as row counts, and no FETCH of zero rows. So the moved LIMIT is rejected
  for NULL, fractions and expressions, `LIMIT 0.0` is kept as it is, and a client's own
  `FETCH FIRST 0 ROWS ONLY` is passed on. An invalid offset next to `LIMIT 0` is lost.
  (`TailsAgreeExactly`; `OddCountFails`, `ZeroCountFails`, `ZeroFetchFails`, `LostOffsetFails`.)
* A stream that is dropped unpolled leaves its id in the slot, as happens after every DDL statement; and the
  end of an earlier stream of a batch takes out the id of a later one. `src/trino_stream.rs:133-135` and
  `src/query_pipeline.rs:35-37` say otherwise; the model follows the code
  (`CloseClearsJustItsOwnIdExactly`, `SlotKeepsIdExactly`; `DroppedStreamKeepsItsId`, `BatchLosesItsId`).
* With 64 responses waiting, a described statement runs a second time when it is executed, side effects and
  all, against `src/query_extended.rs:61-66` (`DescribedPortalRunsOnce`, `FullCacheRunsTwice`).
* The portal cache compares SQL text only, so re-binding with other result formats delivers the old ones
  (`DeliveredFormatExactly`, `StaleFormatIsDelivered`).
* The text form of an integer column cuts off fractions where the binary form reports an error
  (`TextIsExactExactly`, `HalfFails`).
* An http URL in front of an https URL keeps its host (`HostsAreMaskedExactly`, `HttpFirstFails`).
* A space-indented stack frame in front of a tab-indented one is passed on (`NoFramesLeftExactly`,
  `SpaceFrameFails`).

A remark on a helper: `truncate_with_ellipsis` would exceed a limit below three bytes by its ellipsis
(`TruncationIsLongestPrefix`); its one caller passes 512.

## Model

| member | source | states |
|---|---|---|
| `RewritePreservation.RewritePreservesMeaning` | src/rewrite/mod.rs:35-70 | for related engines and every query whose names are safe and whose nodes fit on the values they have where the evaluation reaches them, Trino's outcome on the rewritten query is PostgreSQL's outcome on the original, for any outer row and CTEs |
| `RewriteChecks.CheckedStatementsKeepMeaning` | src/rewrite/mod.rs:35-70 | the same on all data for statements that pass a check of their text alone |
| `RewritePreservation.MeaningKeptQ` | src/rewrite/mod.rs:60-69 | the same for one fused walk over a query: CTEs, body, sort keys, limit, offset and fetch |
| `RewritePreservation.MeaningKeptE` | src/rewrite/mod.rs:64-67 | every visited expression has the value of the original on every row, group and CTE environment |
| `RewritePreservation.MeaningKeptR` | src/rewrite/mod.rs:64-67 | every visited FROM item and query body yields the same rows or the same rejection |
| `RewritePreservation.AggregatesKept` | src/rewrite/functions.rs:13-38 | renaming never turns a grouped query into an ungrouped one or back |
| `RewritePreservation.TailsAgreeExactly` | src/rewrite/limit_offset.rs:34-79 | for every query and every evaluation of its counts, the rewritten tail cuts under Trino's rules what the original cuts under PostgreSQL's, if and only if the counts are literals of digits and no client FETCH is for zero rows, or PostgreSQL rejects the tail too; for LIMIT 0, if and only if it is spelled with digits exactly when the offset is valid |
| `RewritePreservation.LimitAsFetchExactly` | src/rewrite/limit_offset.rs:15-19 | LIMIT n OFFSET m as FETCH agrees if and only if both counts are literals of digits, or PostgreSQL rejects it too |
| `RewritePreservation.ZeroLimitDropsOffsetExactly` | src/rewrite/limit_offset.rs:57-70 | a bare LIMIT 0 agrees if and only if it is spelled with digits exactly when the dropped offset is valid |
| `RewritePreservation.UnmovedTailExactly` | src/rewrite/limit_offset.rs:34-55 | a tail that is left alone, a client's FETCH included, agrees if and only if Trino takes its counts or PostgreSQL rejects it too |
| `RewritePreservation.RelatedEngineExists` | src/rewrite/functions.rs:26-33 | every PostgreSQL engine without functions under the target names has a Trino engine related to it, so the theorem is not about nothing |
| `RewriteConditions.NamesFollowExactlyWhenFoldSafe` | src/rewrite/functions.rs:13-38 | the renamed name resolves in Trino to the counterpart of what PostgreSQL calls if and only if no part is quoted with an upper-case letter |
| `RewriteConditions.QuotedNameFails` | src/rewrite/functions.rs:13-38 | quoted LOG with one argument: another function in PostgreSQL, log10 after the rewrite |
| `RewritePreservation.CastKeptExactly` | src/rewrite/casts.rs:13-41 | a cast that is an error stays one; any other keeps its value if and only if the element type of an array has no PostgreSQL name at any depth |
| `RewriteConditions.LeftoverTypeFails` | src/rewrite/casts.rs:29-41 | a cast to text[] is an error after the rewrite |
| `RewritePreservation.DroppedAnyExactly` | src/rewrite/predicates.rs:19-33 | with ANY as a three-valued OR over array elements: dropping it keeps the value if and only if the subject is no text, or the pattern is NULL, of another type, an array with an invalid element before the first match, or a text that is no valid pattern |
| `RewriteConditions.DroppedAnyFails` | src/rewrite/predicates.rs:19-33 | 'a' ILIKE ANY (ARRAY['a']) is true before and an error after the rewrite |
| `RewritePreservation.PassedAnyExactly` | src/rewrite/predicates.rs:34-37 | LIKE ANY is left alone and keeps its value if and only if it is an error in PostgreSQL too |
| `RewriteConditions.PassedAnyFails` | src/rewrite/predicates.rs:34-37 | 'a' LIKE ANY (ARRAY['a']) is true in PostgreSQL and an error in Trino |
| `RewriteConditions.DefaultEscapeFails` | src/rewrite/predicates.rs:34-37 | a LIKE node without ESCAPE that is true in PostgreSQL and false in Trino |
| `RewriteConditions.DefaultEscapeFailsILike` | src/rewrite/predicates.rs:16-33 | an ILIKE node without ESCAPE that is true in PostgreSQL and false in Trino after the rewrite |
| `RewriteConditions.EscapedLetterFails` | src/rewrite/predicates.rs:34-37 | 'b' LIKE '!b' ESCAPE '!' is true in PostgreSQL and an error in Trino |
| `RewriteConditions.OddCountFails` | src/rewrite/limit_offset.rs:63-76 | LIMIT NULL, 2.5 and 0.0 with OFFSET 0: answered by PostgreSQL, different after the rewrite |
| `RewriteConditions.ZeroCountFails` | src/rewrite/limit_offset.rs:82-96 | LIMIT 1 - 1 OFFSET 0: no rows in PostgreSQL, rejected after the rewrite |
| `RewriteConditions.ZeroFetchFails` | src/rewrite/limit_offset.rs:35-38 | a client's FETCH FIRST 0 ROWS ONLY: no rows in PostgreSQL, rejected after the rewrite |
| `RewriteConditions.LostOffsetFails` | src/rewrite/limit_offset.rs:63-70 | LIMIT 0 with an invalid OFFSET: an error in PostgreSQL, answered after the rewrite |
| `LikePattern.EscapeMattersExactlyWhenUsed` | src/rewrite/predicates.rs:34-37 | for LIKE, which is left alone: a pattern read with an escape and without one matches the same strings if and only if it does not contain the escape character |
| `LikePattern.UnescapedILikeExactly` | src/rewrite/predicates.rs:27-33 | for the rewritten ILIKE: the lowered pattern read without an escape answers as ILIKE with an escape does, on all strings, if and only if the pattern does not contain the escape character |
| `LikePattern.ILikeIsLikeOnLowered` | src/rewrite/predicates.rs:10-33 | lower(x) LIKE lower(p) is x ILIKE p for all strings, patterns and caseless escapes, pattern errors included |
| `LikePattern.TrinoReadsExactly` | src/rewrite/predicates.rs:34-37 | a LIKE with ESCAPE, which is left alone, is answered by Trino as by PostgreSQL if and only if the escape stands only before wildcards and itself, or the pattern is invalid to both |
| `LikePattern.ILikeRewriteExactlyWhenStrict` | src/rewrite/predicates.rs:27-33 | the same for the rewritten ILIKE under a caseless escape |
| `LikePattern.ILikeRewriteExactlyWhenCaseless` | src/rewrite/predicates.rs:27-33 | the rewritten ILIKE is right on all strings and all patterns with such escapes if and only if the escape character is caseless |
| `LikePattern.ILikeRewriteFails` | src/rewrite/predicates.rs:27-33 | for every escape character with a case, a string and a pattern that go wrong |
| `LikePattern.TokensOfLoweredPattern` | src/rewrite/predicates.rs:43-60 | reading the lowered pattern gives the lowered tokens, or the same error |
| `LikePattern.MatchingLoweredString` | src/rewrite/predicates.rs:43-60 | plain matching of lowered operands is case-insensitive matching of the originals |
| `SqlSemantics.ZeroLiteralCountsZero` | src/rewrite/limit_offset.rs:88-96 | whatever the double parser reads as zero is a row count of zero |
| `SqlSemantics.TinyLiterals` | src/rewrite/limit_offset.rs:88-96 | 2^-1075 of either sign is read as zero and 2^-1074 is not |
| `Rewrite.VisitsFuseE` | src/rewrite/mod.rs:64-67 | two visits of an expression are one visit with both sets of actions |
| `Rewrite.VisitsFuseQ` | src/rewrite/mod.rs:64-67 | two visits of a query are one visit with both sets of actions |
| `Rewrite.PipelineIsOneWalk` | src/rewrite/mod.rs:60-69 | the four visits are one bottom-up walk applying all actions |
| `Rewrite.VisitorsCommute` | src/rewrite/mod.rs:60-69 | any two visitors, or sets of them, may be run in either order |
| `Rewrite.PipelineIsIdempotent` | src/rewrite/mod.rs:60-69 | rewriting a rewritten query changes nothing |
| `Rewrite.StatementPipeline` | src/rewrite/mod.rs:60-69 | for every statement, INSERT and the like with their expressions and queries included, the pipeline is one walk and is idempotent |
| `Rewrite.TargetsAreNotRenamed` | src/rewrite/functions.rs:26-33 | no target of the rename table is renamed again, at any number of arguments |
| `Rewrite.RenamesExactly` | src/rewrite/functions.rs:13-38 | string_agg, one-argument log and trunc, unqualified and in any case, get their three names and keep their quotes; every other name and arity stays |
| `Rewrite.NormalizingKeepsSort` | src/rewrite/casts.rs:29-41 | a normalised type stands for what the original stands for, is no PostgreSQL-only name, and is the original if and only if that was none |
| `Rewrite.LowerCallIsInert` | src/rewrite/predicates.rs:43-60 | every visitor passes through the generated lower calls unchanged |
| `Rewrite.LimitActionCommutesWithWalk` | src/rewrite/limit_offset.rs:34-79 | moving the LIMIT before or after the parts of the query are visited is the same |
| `Rewrite.VisitKeepsZeroLiterals` | src/rewrite/limit_offset.rs:88-96 | no visitor makes or destroys a zero literal |
| `RewriteNormalForm.NoPostgresNodeLeft` | src/rewrite/mod.rs:21-27 | in the output, at any depth: no ILIKE, no `::`, no mapped outer type name, no renameable call |
| `RewriteNormalForm.NoLimitBeforeOffsetLeft` | src/rewrite/limit_offset.rs:6-28 | for every input: no query of the output without a FETCH and without LIMIT BY, at any depth, has both LIMIT and OFFSET |
| `RewriteNormalForm.UnchangedExactly` | src/rewrite/mod.rs:60-69 | the pipeline leaves a query unchanged if and only if nothing in it, at any depth, is for the visitors to change |
| `RewriteNormalForm.PrintsInTrinoOrderExactly` | src/rewrite/limit_offset.rs:8-28 | every query of the output is the visited form of one of the input; its tail prints in Trino's order if and only if that one had no LIMIT BY, no comma form and not both LIMIT and FETCH; and a FETCH it did not have comes after an OFFSET and is not for a zero literal |
| `RewriteVisitors.PostVisitExpr` | src/rewrite/predicates.rs:16-40 | the in-place node actions of the expression visitors compute the action functions |
| `RewriteVisitors.PostVisitQuery` | src/rewrite/limit_offset.rs:34-79 | taking the limit out and putting it back or into FETCH computes the query action, both early returns included |
| `RewriteVisitors.VisitExpr` | src/rewrite/mod.rs:64-66 | the in-place walk over an expression computes the walk function |
| `RewriteVisitors.VisitQuery` | src/rewrite/mod.rs:64-67 | the in-place walk over a query computes the walk function |
| `RewriteEntry.RewriteSql` | src/rewrite/mod.rs:35-70 | of its result: exactly one parsed statement is printed, in Trino form at every depth and in Trino's order, and for all related engines every query and expression of it that fits keeps its outcome or value; parse failures, nothing and several statements pass the text through |
| `RewriteEntry.StatementBecomesTrino` | src/rewrite/mod.rs:60-69 | every query and expression of a rewritten statement, command or query, is free of what the visitors look for, comes from one of the input, and prints in order exactly when that one allows it |
| `RewriteEntry.StatementKeepsMeaning` | src/rewrite/mod.rs:60-69 | under the conditions of the main theorem each query and expression of the statement has the outcome or value of the original in its place |
| `CancelProtocol.CancelsNameQueriesOfTheirKey` | src/cancel.rs:28-67 | after every run, whatever keys are handed out: slots hold their connection's latest id, and every cancel sent names a query submitted under its key |
| `CancelProtocol.CancelSafety` | src/session.rs:49-85 | after every run without a key in use being handed out again, in addition: the registry is exactly the live sessions, and no two of them share a key |
| `CancelProtocol.CancelSafetyUpToWrap` | src/startup.rs:25-35 | the same for every run of at most 2^32 sessions, whatever the secrets |
| `CancelProtocol.SlotLifetime` | src/trino_stream.rs:233-246 | in every run, after a polled stream or a failed eager phase has ended, no slot holds the id and no later slot read returns it |
| `CancelProtocol.EndedIdsAreNeverReadAgain` | src/trino_stream.rs:233-246 | the same from any state that keeps the invariant of every run, by induction over what follows |
| `CancelProtocol.RunKeepsAlways` | src/trino_stream.rs:166-283 | every interleaving keeps the invariant of slots, ownership and cancels |
| `CancelProtocol.RunKeepsInv` | src/session.rs:49-85 | every interleaving without a key in use being handed out keeps that of the registry as well |
| `CancelProtocol.StepKeepsInv` | src/session.rs:49-85 | every single step that hands out no key in use keeps both |
| `CancelProtocol.NewKeyKeepsRegistryExactly` | src/session.rs:49-64 | registering a session keeps the registry exact if and only if its key is not in use |
| `CancelProtocol.FewSessionsAreFresh` | src/startup.rs:25-35 | no key is handed out while in use as long as the process has had at most 2^32 sessions |
| `CancelProtocol.PidsRepeatExactly` | src/startup.rs:25-35 | the wrapping counter gives two sessions the same pid if and only if they are a multiple of 2^32 apart |
| `CancelProtocol.RunningQueryIsCancelled` | src/cancel.rs:28-67 | from submission on, through eager phase and streaming, with any traffic of others before the lookup and between lookup, read and send, a cancel request with the connection's key is sent to Trino for that very query |
| `CancelProtocol.ReadsAreCurrent` | src/cancel.rs:28-67 | an id that a cancel request reads is the newest of the connection its key belongs to, and that query has not ended |
| `CancelProtocol.DisconnectEndsTheKey` | src/session.rs:138-142 | after a disconnect and any run that does not hand the key out again, the key is not registered, a lookup of it changes nothing, and no more is sent under it than by requests looked up before |
| `CancelProtocol.DisconnectLeavesOthersAlone` | src/session.rs:82-85 | a disconnect keeps every other key registered to its session and touches no slot, query or request |
| `CancelProtocol.UnknownKeyIsIgnored` | src/cancel.rs:28-37 | a cancel request under a key that is not registered changes nothing |
| `CancelProtocol.FoundIdsAreSentOnce` | src/cancel.rs:28-67 | conservation over every run: the ids that requests have read are those waiting to be sent and those sent, each as often |
| `CancelProtocol.EndingsEnd` | src/trino_stream.rs:172-246 | a failed eager phase and the end of a polled stream end their query and empty the slot |
| `CancelProtocol.CloseClearsJustItsOwnIdExactly` | src/trino_stream.rs:233-246 | closing a stream takes out its own id and leaves others alone if and only if a polled stream finds the slot empty or its own, and an unpolled one does not find its own |
| `CancelProtocol.SlotKeepsIdExactly` | src/query_pipeline.rs:33-41 | over every run in which the connection submits nothing new, its slot keeps the id it holds if and only if no eager phase of it fails and no polled stream of it ends |
| `CancelProtocol.UnpolledStreamIsStillCancelled` | src/query_pipeline.rs:165-171 | in every state with an unpolled stream in the slot, dropping it and then cancelling still sends a cancel to Trino |
| `CancelProtocol.EarlierStreamClearsLaterId` | src/trino_stream.rs:238-245 | the end of an earlier stream of a batch empties the slot under a later, unfinished query |
| `CancelProtocol.BatchLosesItsId` | src/query_pipeline.rs:33-41 | a run from the start of the process: two statements of a batch are submitted, the first stream ends, and the id of the second, still to be polled, is gone from the slot |
| `CancelProtocol.DroppedStreamKeepsItsId` | src/query_pipeline.rs:165-171 | a run from the start of the process after which the id of an unpolled, dropped stream is in the slot |
| `CancelProtocol.Gateway.constructor` | src/session.rs:34-47 | starts in the initial state |
| `CancelProtocol.Gateway.SetActiveQueryId` | src/trino_stream.rs:83-91 | writes one connection's slot and nothing else |
| `CancelProtocol.Gateway.EstablishSession` | src/startup.rs:211-232 | is the step that hands out a key, a registry entry and an empty slot |
| `CancelProtocol.Gateway.DropConnectionState` | src/session.rs:138-142 | is the step that removes the registry entry and leaves the shared slot |
| `CancelProtocol.Gateway.RecordSubmission` | src/trino_stream.rs:166-172 | is the step that records the id before the reply is looked at |
| `CancelProtocol.Gateway.FinishEagerPhase` | src/trino_stream.rs:172-213 | is the step that clears the slot on failure and leaves it on success |
| `CancelProtocol.Gateway.PollStream` | src/trino_stream.rs:233-246 | is the step that brings the clearing guard into being |
| `CancelProtocol.Gateway.CloseStream` | src/trino_stream.rs:238-246 | is the step that ends a stream; the slot is cleared only if it was polled |
| `CancelProtocol.Gateway.LookupCancel` | src/session.rs:72-80 | finds the session of a key if and only if the key is registered |
| `CancelProtocol.Gateway.ReadSlot` | src/cancel.rs:28-67 | reads the slot as it is at that moment, not as it was at the lookup |
| `CancelProtocol.Gateway.SendCancel` | src/cancel.rs:28-67 | sends the id that was read, or nothing for an idle connection |
| `PortalCache.CacheRefinesRunningTheBoundStatement` | src/query_extended.rs:79-147 | over every message sequence, each delivered response comes from a successful run of exactly the text bound at delivery, none is delivered twice, and at most 64 are held |
| `PortalCache.DescribedPortalRunsOnce` | src/query_extended.rs:223-288 | after a successful Describe and any traffic elsewhere, Execute adds no run and delivers the described response if there was room, and exactly one run otherwise |
| `PortalCache.EntrySurvives` | src/query_extended.rs:291-319 | no message on other portals, and no Bind or Close, touches an entry |
| `PortalCache.SecondExecuteRunsAgain` | src/query_extended.rs:105-129 | a response serves one Execute; the next adds a run |
| `PortalCache.ExecuteTakesEntry` | src/query_extended.rs:291-296 | Execute takes out the entry of its portal, whether the text matches or not, and no other |
| `PortalCache.NextExecuteRunsAgain` | src/query_extended.rs:105-129 | after an Execute and any messages without a Describe of the portal, re-binds included, the next Execute adds exactly one run of the text bound then and delivers it |
| `PortalCache.ResponsesAreNewerThanTheLastExecute` | src/query_extended.rs:105-129 | over every message sequence, what an Execute delivers was run after the previous Execute of its portal |
| `PortalCache.FailedDescribeKeepsEntries` | src/query_extended.rs:223-288 | a Describe that fails leaves every entry and delivers nothing |
| `PortalCache.FullCacheRunsTwice` | src/query_extended.rs:298-319 | a run from the start of the connection in which one portal, described and executed once, makes its statement run twice |
| `PortalCache.RunsAreAccountedFor` | src/query_extended.rs:79-288 | conservation: runs plus responses served from the cache equal describes, row-returning statement describes and executes |
| `PortalCache.StepKeepsInv` | src/query_extended.rs:79-319 | every message keeps the invariant that each response is in at most one place |
| `PortalCache.DeliveredFormatExactly` | src/query_extended.rs:105-129 | after a Describe and any traffic that leaves the same text bound, Execute delivers the described response, in the formats bound now if and only if they are those bound at Describe |
| `PortalCache.StaleFormatIsDelivered` | src/query_extended.rs:105-129 | a run from the start of the connection that delivers rows in formats no longer bound |
| `PortalCache.Connection.constructor` | src/session.rs:120-136 | starts with nothing bound, cached, run or delivered |
| `PortalCache.Connection.TakeCached` | src/query_extended.rs:291-296 | removes and returns the entry of a name |
| `PortalCache.Connection.InsertCached` | src/query_extended.rs:298-319 | replaces an entry of the same name; never grows past the cap |
| `PortalCache.Connection.DescribePortal` | src/query_extended.rs:223-288 | is the Describe step |
| `PortalCache.Connection.ExecutePortal` | src/query_extended.rs:79-147 | is the Execute step; no response if and only if there was no hit and the run failed |
| `PortalCache.Connection.DescribeStatement` | src/query_extended.rs:154-221 | is the statement-describe step; DML and DDL are not run |
| `TrinoStream.QueryToEnd` | src/trino_stream.rs:145-283 | by the pages' own data fields and by index: a stream opens unless a failing page comes first, item n is the encoding of row n of the direct data of all pages before the first failing one, nothing else arrives, and one error follows if a page failed |
| `TrinoStream.ExecuteTrinoQuery` | src/trino_stream.rs:145-213 | opens a stream or fails as the page it stops at says, holds exactly the direct rows of the pages up to that one, by index, leaves the id in the slot with a stream and takes it out on failure |
| `TrinoStream.OpenStream` | src/trino_stream.rs:172-213 | the eager loop: first page with columns, rows so far, rest of the chain unfetched, error of the first failing page |
| `TrinoStream.StopAt` | src/trino_stream.rs:185-213 | every page before it succeeds without columns, and it fails, shows columns or is the last |
| `TrinoStream.Drain` | src/trino_stream.rs:248-280 | polling to the end yields the held rows, then the direct rows of the remaining pages up to the first failing one, by index, then its error |
| `TrinoStream.YieldAll` | src/trino_stream.rs:254-280 | the lazy loop, on any linked chain of pages |
| `TrinoStream.PhasesJoin` | src/trino_stream.rs:145-283 | delivering both parts of a chain cut at any page is delivering the whole |
| `TrinoStream.PagesAreTheChain` | src/trino_stream.rs:185-213 | the pages are the replies linked by their next fields, from the first to the one without |
| `TrinoStream.ItemsDeliver` | src/trino_stream.rs:254-280 | what is yielded is, place by place, the encoded held rows and direct rows of the pages, as many as there are |
| `TrinoStream.EagerOpens` | src/trino_stream.rs:172-213 | the eager phase ends at the first page that fails, shows columns or is the last, with the columns and rows of the pages up to it |
| `TrinoStream.SetActiveQueryId` | src/trino_stream.rs:83-91 | writes the slot; without a slot nothing happens |
| `QueryPipeline.ProcessQuery` | src/query_pipeline.rs:46-98 | the responses of each statement of the longest error-free prefix stand at their place in statement order, followed by one trailing client error if there is one and by nothing else; nothing after it is run, and a fatal error answers nothing |
| `QueryPipeline.SplitStatements` | src/query_pipeline.rs:104-109 | several parsed statements come back as they are, in order; anything else is the query itself |
| `QueryPipeline.FirstError` | src/query_pipeline.rs:66-98 | everything before it succeeds and it does not |
| `QueryPipeline.JoinedInOrder` | src/query_pipeline.rs:66-98 | the responses of every statement are found at the number of responses before it |
| `Fractions.TruncateFraction` | src/types.rs:382-398 | the two searches of the loop compute the truncation function |
| `Fractions.TruncationKeepsAllButExcessDigits` | src/types.rs:382-398 | of the digits after the first dot the first nine remain; prefix and zone suffix are untouched, for any number of digits |
| `Fractions.EveryTextSplits` | src/types.rs:382-398 | every text with a dot has the shape the lemma above speaks of |
| `Fractions.TextsWithoutDotAreKept` | src/types.rs:382-398 | a text without a dot is kept as it is |
| `Fractions.TruncationIsIdempotent` | src/types.rs:382-398 | truncating twice is truncating once, for every text |
| `Fractions.FloorThroughNanos` | src/types.rs:563-571 | nine digits and nanoseconds in between lose nothing: the microseconds are the exact floor of the fraction |
| `Fractions.PrintedFractionIsExactFloor` | src/types.rs:563-571 | the printed fraction is nothing for zero, and otherwise a dot and up to six digits without a trailing zero whose value is that floor |
| `Fractions.LeapSecondsAreClamped` | src/types.rs:563-571 | nanoseconds of a leap second print as .999999 |
| `Fractions.SpellingIsUnique` | src/types.rs:563-571 | no other digits without a trailing zero denote the same fraction |
| `TimeTz.EncodeBothWays` | src/types.rs:496-527 | the text and the twelve bytes of a timetz both read back as its microseconds and its offset |
| `TimeTz.TextReadsBack` | src/types.rs:496-506 | reading the text gives the microseconds and the offset |
| `TimeTz.ToSql` | src/types.rs:508-527 | eight bytes of microseconds, then four of seconds west, big-endian two's complement |
| `TimeTz.OffsetRoundTrip` | src/types.rs:575-586 | offsets of any size read back as written, wherever they stand |
| `TimeTz.OffsetIsShortest` | src/types.rs:575-586 | no spelling of the same offset is shorter |
| `IntegerCells.JsonToI64Exactly` | src/types.rs:302-327 | a number converts if and only if it is a whole number in the range of i64, and then to itself |
| `IntegerCells.BinaryIsExact` | src/types.rs:250-259 | binary encoding succeeds if and only if the number is whole and fits the column; the bytes read back as the number and as what the text path prints |
| `IntegerCells.TextIsExactExactly` | src/types.rs:139-176 | the text stands for the number if and only if the number is not a fractional double within the range of i64 |
| `IntegerCells.TextCutsTowardZero` | src/types.rs:139-176 | within range the text is a whole number of the double's sign, less than one away from it |
| `IntegerCells.HalfFails` | src/types.rs:139-176 | one half in an integer column: text 0, refused in binary |
| `IntegerCells.RoundingStaysAbove` | src/types.rs:302-327 | no integer from 2^63 up rounds into the range of i64 on its way through a double |
| `IntegerCells.RoundsToNearest` | src/types.rs:302-327 | the double of a large integer is a nearest multiple of 2^11, the even one from the middle |
| `TypeNames.NamesMapToTheirTypes` | src/types.rs:20-52 | for every type tree of any depth the printed name maps to the type of the tree, arrays of arrays to text arrays |
| `TypeNames.ArrayName` | src/types.rs:24-27 | wrapping any name in array(...) wraps its type, whatever brackets the name contains |
| `TypeNames.ZonedName` | src/types.rs:54-71 | a precision inside a zoned name is removed and the zone suffix kept |
| `TypeNames.BracketedName` | src/types.rs:54-71 | parameters with any content, nested brackets included, are removed as a whole |
| `TypeNames.KindNames` | src/types.rs:29-51 | the table gives every scalar its type |
| `TypeNames.OtherNamesAreText` | src/types.rs:29-51 | every name the table does not know is text |
| `TypeNames.OnlyNormalFormMatters` | src/types.rs:21 | case and surrounding white space do not matter |
| `TypeNames.StripTypeParams` | src/types.rs:61-71 | the two searches and the rebuilt text compute the stripping function |
| `ClientError.SanitiseForClient` | src/error_mapping.rs:71-90 | the bytes sent are at most 512 and those of a kept text (see below); a message with nothing to remove is sent as it is |
| `ClientError.SanitisedIsKept` | src/error_mapping.rs:71-90 | which characters are kept: those from the end of the exception names to a stack frame or the end, hosts replaced by the mask, less outer white space, and of these all or the longest beginning that fits with the ellipsis |
| `ClientError.CleanIsKept` | src/error_mapping.rs:71-90 | a message without frame, exception name, URL and outer white space that fits is kept whole |
| `ClientError.MaskingReplacesOnlyHosts` | src/error_mapping.rs:130-152 | masking replaces hosts, each up to its first end character, and keeps all other text |
| `ClientError.TextWithoutUrlsIsKept` | src/error_mapping.rs:130-152 | masking leaves a text without URLs alone |
| `ErrorText.NoHostReachesTheClient` | src/error_mapping.rs:71-90 | end to end: unless an unmasked http URL precedes an https URL, every scheme in the text sent is followed by the mask as its whole host, or by what the final cut left of it |
| `ErrorText.NoHostOfHttpsFirstMessages` | src/error_mapping.rs:71-90 | in particular for every message in which no http URL comes before an https URL |
| `ErrorText.NoFramesLeftExactly` | src/error_mapping.rs:72-76 | the message is cut to a prefix, without any stack frame line if and only if no space-indented frame comes before the first tab-indented one |
| `ErrorText.CutsAtFrameExactly` | src/error_mapping.rs:72-76 | the message is kept whole if and only if it has no frame, and is otherwise cut at its first tab frame, or at its first space frame if it has no tab frame |
| `ErrorText.SpaceFrameFails` | src/error_mapping.rs:72-76 | a message of which a stack frame is kept |
| `ErrorText.HostsAreMaskedExactly` | src/error_mapping.rs:130-152 | every URL of the output has the mask as its whole host if and only if no http URL without one stands before an https URL |
| `ErrorText.HttpFirstFails` | src/error_mapping.rs:130-152 | a message of which a host is kept |
| `ErrorText.HttpsFirstIsEnough` | src/error_mapping.rs:130-152 | in particular if all https URLs come first |
| `ErrorText.TextBeforeHttpsSurvives` | src/error_mapping.rs:130-152 | the failing family: whatever precedes the first https URL is passed on |
| `ErrorText.MaskLoop` | src/error_mapping.rs:130-152 | the loop over the rest of the text computes the masking function |
| `ErrorText.StripsExactlyTheWrappers` | src/error_mapping.rs:110-125 | a message wrapped in any number of exception class names, as they are spelled, loses exactly the wrappers |
| `ErrorText.StrippingUnwraps` | src/error_mapping.rs:110-125 | for every message: what is stripped is a sequence of exception names with their colon and all white space after it, and what is left has none in front |
| `ErrorText.ExceptionNamesExactly` | src/error_mapping.rs:110-125 | the test by prefix and suffix accepts exactly the names spelled package, anything, Exception or Error |
| `ErrorText.StripEndsAtSuffixFixpoint` | src/error_mapping.rs:71-90 | the stripping loop ends at a fixpoint, which is a suffix of its input |
| `ErrorText.StripLoop` | src/error_mapping.rs:71-90 | the loop computes repeated stripping |
| `ErrorText.TruncateWithEllipsis` | src/error_mapping.rs:94-105 | walking back to a character boundary in the bytes is cutting the text |
| `ErrorText.TruncationIsLongestPrefix` | src/error_mapping.rs:94-105 | the longest whole-character prefix that fits together with the ellipsis; within the limit if and only if the text fits or the limit is at least three |
| `Oids.Djb2Oid` | src/catalog/pg_class.rs:31-44 | the wrapping loops compute the closed polynomial modulo 2^32, within [base, 2^31 - 1) |
| `Oids.MixExtends` | src/catalog/pg_class.rs:37-40 | one wrapping step extends the polynomial by a byte |
| `Oids.BytesDetermineNames` | src/catalog/pg_class.rs:34-38 | the hashed bytes determine schema and table: the separator never occurs in UTF-8 |
| `Oids.TableOid` | src/catalog/pg_class.rs:50-52 | the polynomial over schema, separator and table, from 16384 up |
| `Oids.NamespaceOid` | src/catalog/pg_class.rs:57-62 | 2200 if and only if the schema is public |
| `Oids.SampleOids` | src/catalog/pg_class.rs:31-44 | two ids worked out, one with wrap-around |
| `Utf8.EncodeIsInjective` | src/catalog/pg_class.rs:39-41 | different names have different bytes |

## Left out

- Parsing and printing SQL: sqlparser is not part of this model; the rewriter starts from a tree, and of printing only the order of the tail clauses is modelled.
- What commands do: a statement other than a query is its expressions and queries, which are rewritten and keep their meaning; what the command does with them is not modelled.
- Window functions, WITHIN GROUP and recursive CTEs: the tree does not have them; the visitors treat them like the nodes that are modelled.
- `ESCAPE ''` and escapes of several characters: an ESCAPE clause names one character.
- Bare literals as arrays: PostgreSQL also reads the untyped '{a}' in `ILIKE ANY ('{a}')` as an array; here the pattern of ANY is one only if its value is.
- What the engines share: operators, joins, grouping, sorting and ties are parameters of the semantics, so nothing is said about them.
- Placeholders: a row count such as `$1` is an expression like any other, which Trino does not take.
- Case mapping beyond one character to one character: LIKE takes any such mapping as a parameter; identifiers and type names are lowered in ASCII only.
- Doubles: `is_zero_literal` is modelled by the exact threshold below which decimal text rounds to zero; text of floats and narrowing to f32 are not modelled.
- JSON strings in integer columns, booleans, decimals, dates, timestamps, arrays and objects as cells: parsing is done by chrono and rust_decimal; the gateway hands the text over and reports failures.
- Parsing of timetz and timestamptz text and time zones: done by chrono; the model starts from the parsed value. The round trips are for times without a leap second, whose fraction is clamped.
- Network, TLS, authentication, server wiring, HTTP paging itself and pgwire framing: replies, pipeline outcomes and the secret keys are parameters.
- Poisoned mutexes and lost locks: each locked section is one atomic step.
- Policy, interception, information_schema rewriting, catalog tables and SQLSTATE classification: table lookups with no property beyond their bodies.
- Collisions of synthetic OIDs: a 32-bit hash cannot exclude them; only the hashed bytes are shown to be distinct.
