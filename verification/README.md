# A model of the signed op-log replication engine

The engine keeps an append-only log of signed ops on every device and lets devices pull
from each other. This project models how a puller comes to hold everything a peer holds,
how the stored log can shrink without anyone noticing, and the parts that stand beside
them: the durability file, replay, the authorization server and the wake-up protocol. It
proves, for every input and every run of these state machines, what they promise.

| file | models |
|---|---|
| `OrderKeys.dfy` | order keys, their wire form, and the tables that fold them |
| `Logs.dfy` | the reference op-log: key order beside arrival order |
| `PullServer.dfy`, `PullPages.dfy` | pull v3, building a page, and what every page guarantees |
| `PullClient.dfy`, `PullLink.dfy`, `PullDrain.dfy` | pull v3, applying pages, one link over time, the drain loop |
| `PullTorn.dfy` | pull v3, pages whose parts were read at different times |
| `Relay.dfy` | relay v2, both ends |
| `SqlLog.dfy` | the SQLite log with its materialized heads |
| `Compaction.dfy`, `CompactionRuns.dfy`, `Horizon.dfy` | compaction, its runs, and how far it may reach |
| `RowWrites.dfy` | last-write-wins row writes |
| `Replay.dfy`, `Durable.dfy` | replay into the key/value store, and the frame file |
| `RelayDurable.dfy` | the relay puller, the frame file and saved cursors across crashes |
| `OAuth.dfy`, `Limits.dfy` | the authorization server under interleaving, and its rate limiter |
| `Watch.dfy` | the `/watch` wake-up |

`dafny verify dfyconfig.toml` covers the whole project.

How it is read. Ids, epochs and device ids are natural numbers; epoch 0 is the all-zero
epoch that means "no cursor yet". An op is content-addressed, so equal ids mean equal ops.
Signature, key and clock checks, encodings, file-system outcomes, deadlines and the
person's answer are parameters: a theorem holds for every way they may turn out. Code that
works in place is a class or a method with loops, proved against a function on values; the
theorems about runs are stated over those functions.

The pull v3 run theorems are about one link: each page is built from one snapshot of the
server's log, the request is neither an audit nor scoped to a store, unattested ops are
not skipped, and no second link raises the same claims meanwhile. What holds against any
peer, whatever it sends, is said separately. The server's log may grow, or be replaced
under a new epoch, between any two steps. A puller may start with any holdings and any
claims, as long as it has no cursor.

Where the code and its own words differ, or a natural property is false, the model keeps
the code and states exactly when the property holds:

- The serving side locks its log once per call, so a page may be read in many steps; the
  link theorems need one snapshot, and `PullTorn.TornPageSafeExactly` says when a page
  read apart is as good.
- A complete page on a resumed request can leave origins out, which is why a drain ends
  with a fresh one: `PullPages.CompletePageServesAllExactly`.
- Demoting a row's earliest op leaves the stored origin device as it was:
  `SqlLog.DemoteKeepsOriginExactly`, and over runs `SqlLog.EveryOriginIsExact`.
- The retention policy takes any number of ops to keep per row, and fewer than two can be
  noticed: `CompactionRuns.CompactionIsInvisibleExactly`.
- Demotions between a scan and its deletes can be noticed as well:
  `CompactionRuns.AgreeThroughoutExactly`.
- Rows written from partial images depend on the order of arrival, unless what differs are
  defaults: `RowWrites.ConvergesExactly`.
- A frame body that cannot be read is taken for a torn tail and cut off with everything
  behind it: `Durable.SyncedIsKeptExactly`, `RelayDurable.SavedCursorIsKeptExactly`, and
  beside an open writer `Durable.TidyExactly`.
- A token looked up before its revocation is still admitted: `OAuth.AdmittedWasLookedUp`.
- A replay that breaks off can leave keys behind: `Replay.NoTraceExactly`.
- A relay batch that breaks off stores ops and publishes nothing, so a watcher can sleep
  over them until its time limit: `Watch.StuckExactly`.
- The limiter documents "any window", which fixed windows do not always meet:
  `Limits.PromiseKeptExactly`.
- The 32-bit length prefix truncates: `Durable.FrameRoundTrip`.

## Model

| member | source | states |
|---|---|---|
| `OrderKeys.ToWire` | src/op.rs:96-103 | The 72-byte buffer filled field by field is the big-endian form of the key. |
| `OrderKeys.WireRoundTrip` | src/op.rs:96-116 | Reading the wire form of any key in range gives the key back. |
| `OrderKeys.WireOrder` | src/op.rs:77-116 | Byte-wise order of wire forms is the order-key order, in both directions. |
| `OrderKeys.Raise` | src/sqlite/coverage.rs:125-146 | A claim ends at or above both the old claim and the new key, is one of the two, and no other claim changes. |
| `OrderKeys.LargerBlobIsMax` | src/sqlite/coverage.rs:125-146 | Keeping the larger blob keeps the greater key. |
| `OrderKeys.BlobTable.Upsert` | src/sqlite/oplog_queries.rs:351-364 | The insert-or-replace-if-smaller statement on blobs, decoded, raises the stored key. |
| `OrderKeys.RaiseAllIsMaximum` | src/sqlite/coverage.rs:120-146 | Over any run of such statements an entry never moves back and ends at the greatest key folded into it, which it attains. |
| `OrderKeys.RaiseAllOrderIrrelevant` | src/sqlite/coverage.rs:120-146 | The order in which keys are folded does not matter. |
| `Logs.InsertSorted` | src/log.rs:87-95 | Walking to the place of a new key gives the ordered insertion. |
| `Logs.InsertAscends` | src/log.rs:87-95 | Ordered insertion of a new op keeps the log strictly ascending. |
| `Logs.AscendingUnique` | src/log.rs:87-110 | A set of ops has one ascending arrangement. |
| `Logs.AppendedKeepsValid` | src/log.rs:87-95 | Appending keeps key order, distinct ids and the agreement of both orders, and only extends the arrivals. |
| `Logs.OpLog.Append` | src/log.rs:87-95 | The log grows by the op exactly when its id is new; a repeat changes nothing. |
| `Logs.BuiltHolds` | src/log.rs:87-95 | A log built by appends in any order holds exactly the ops appended, in key order. |
| `Logs.OpLog.Origins` | src/log.rs:168-174 | The ascending list of devices with an op in the log. |
| `Logs.OriginListExact` | src/log.rs:168-174 | That list holds each device with an op once, and no other. |
| `Logs.OriginScan` | src/log.rs:178-204 | The scan returns the first rows of one origin above a key, in order, and one row even for a limit of zero. |
| `Logs.OriginRowsExact` | src/log.rs:178-204 | Those rows are exactly the origin's ops above the key, in the store asked for. |
| `Logs.OpLog.OriginSince` | src/log.rs:178-204 | The object's read of one origin's rows, cut at the limit but after at least one row. |
| `Logs.OpLog.RelayPage` | src/log.rs:142-165 | Arrivals directly after a position, numbered as they arrived. |
| `PullServer.Served` | src/net/pull_server.rs:55-74 | At least one row is served when there is one, and never more than there are. |
| `PullServer.ServedBudget` | src/net/pull_server.rs:55-74 | Rows stop exactly with the one that reaches the byte budget. |
| `PullServer.EncodeOriginRows` | src/net/pull_server.rs:55-74 | The loop appends that many rows, their bytes and the last key. |
| `PullServer.ServeOrigin` | src/net/pull_server.rs:118-157 | One origin onto the page, with what is left of the page and whether it is cut there. |
| `PullServer.ServeOrigins` | src/net/pull_server.rs:133-157 | The loop over origins serves the planned segments in order until the page is cut. |
| `PullServer.BuildKeyedChannel` | src/net/pull_server.rs:92-160 | Channel A as planned: own origin first on a fresh request, otherwise from the resume origin on. |
| `PullServer.ScanArrivals` | src/net/pull_server.rs:273-289 | The scan of arrivals keeps the covered ones and stops at the first covered one past the budget. |
| `PullServer.PageBytes` | src/net/pull_server.rs:274-274 | The bytes of channel A already on the page. |
| `PullServer.BuildBackfill` | src/net/pull_server.rs:273-292 | Channel B beside a given channel A. |
| `PullServer.BuildPullPage` | src/net/pull_server.rs:162-293 | The page built from one snapshot of the log, over resets, store requests, both resume phases and cuts. |
| `PullServer.Clamp` | src/net/pull_server.rs:177-177 | Limits are brought into 1..8192. |
| `PullPages.ServeBounds` | src/net/pull_server.rs:92-160 | Channel A stays within its count, passes the byte budget only with its last entry, and a cut names the last key served. |
| `PullPages.ServeComplete` | src/net/pull_server.rs:92-160 | An uncut channel serves every wanted op of every planned origin. |
| `PullPages.ServeClosed` | src/net/pull_server.rs:92-160 | With any op of an origin, all its wanted ops that sort no higher are served no later. |
| `PullPages.ServeSorted` | src/net/pull_server.rs:133-157 | Origins ascend, and keys ascend within an origin. |
| `PullPages.PlanIsGood` | src/net/pull_server.rs:108-147 | A token the puller has caught up with leads to each origin being served from its claim, once. |
| `PullPages.FreshPlanReaches` | src/net/pull_server.rs:116-131 | A request without a token plans every origin of the log. |
| `PullPages.FreshChannelExact` | src/net/pull_server.rs:92-160 | A channel A neither resumed nor cut serves exactly the ops of the store asked for above the claims, all of them in an audit. |
| `PullPages.OwnComesFirst` | src/net/pull_server.rs:116-131 | On a fresh page the server's own ops come first, and no other before all of them that are asked for. |
| `PullPages.ScanExact` | src/net/pull_server.rs:276-291 | The scan keeps exactly the covered arrivals up to where it stops, and stops early only for bytes. |
| `PullPages.ScanBytes` | src/net/pull_server.rs:278-289 | Only the last kept arrival may pass the byte budget. |
| `PullPages.PageIsBounded` | src/net/pull_server.rs:162-293 | Every page for every request: at most the limit of entries, budget passed by at most the last entry, complete exactly without a token, a keyed token naming a key just served. |
| `PullPages.KeyedChannelIsHonest` | src/net/pull_server.rs:92-160 | Channel A of a coherent request is closed downwards, in order, and complete when fresh and uncut. |
| `PullPages.BackfillPageIsHonest` | src/net/pull_server.rs:273-292 | Channel B carries exactly the covered arrivals of its range and a token only when it advanced. |
| `PullPages.PageIsHonest` | src/net/pull_server.rs:162-293 | Every page for a coherent, non-audit, unscoped request that needs no reset has all of these properties. |
| `PullPages.CompletePageIsExact` | src/net/pull_server.rs:245-292 | A complete page for a fresh request, audit or not, scoped or not, carries exactly the ops of the store asked for above the claims, all of them in an audit, and exactly the covered arrivals past the cursor, none when scoped to a store. |
| `PullPages.ResumedChainSkips` | src/net/pull_server.rs:109-131 | A concrete resumed page that is complete and leaves out an origin below the one it resumed in. |
| `PullPages.ResumedChannelExact` | src/net/pull_server.rs:109-157 | An uncut channel resumed in an origin serves an uncovered op exactly when its device is not below that origin. |
| `PullPages.CompletePageServesAllExactly` | src/net/pull_server.rs:162-293 | A complete page carries every op above the claims if and only if the request had no token, or a keyed one with nothing uncovered in a smaller origin, or a positional one with nothing uncovered at all. |
| `PullClient.AdmitExactly` | src/net/socket.rs:394-453 | Exactly the ops before the first that fails its checks are admitted; it fails exactly when one does, or a new op was admitted and the replay fails. |
| `PullClient.PageOnlyPassed` | src/net/pull_client.rs:222-349 | Applying a page, whole or in part, adds to the log only ops that were on it and passed their checks. |
| `PullClient.SeqsAdvanceExactly` | src/net/pull_client.rs:250-262 | Numbers advance if and only if the first is past the cursor and each is past the one before. |
| `PullClient.OrderErrorExactly` | src/net/pull_client.rs:298-326 | A channel A passes if and only if every entry is above the one before it in its origin, or opens an origin above the one before; only the second origin, after the server's own, may sort below. |
| `PullClient.DisorderIsRefused` | src/net/pull_client.rs:222-349 | A page of another stream, with numbers that do not advance or a channel A out of order never goes through, and of its channel A nothing is taken. |
| `PullClient.ResetAgreement` | src/net/pull_client.rs:150-195 | The puller takes a reset exactly when its own check calls for one, and the installed cursor needs no second one. |
| `PullClient.ResetExactlyWhenInvalid` | src/net/pull_server.rs:28-51 | A page is a reset exactly when the cursor is invalid for the log it was built from. |
| `PullClient.Socket.AdvanceLocalCoverage` | src/net/socket.rs:358-369 | The claim is raised, never lowered. |
| `PullClient.Socket.SaveRelayCursor` | src/net/socket.rs:371-384 | The saved cursor only advances within an epoch and is replaced by another epoch. |
| `PullClient.Socket.ResetRelayCursor` | src/net/socket.rs:386-392 | A reset replaces the saved cursor. |
| `PullClient.Socket.AdmitOps` | src/net/socket.rs:394-453 | The loop over the log and the store does what one admission says: the ops before the first refused one are logged, and a failed replay is reported. |
| `PullClient.GroupRuns` | src/net/pull_client.rs:296-326 | Grouping and the order checks in one pass: the groups, or the first rule broken. |
| `PullClient.CheckSeqs` | src/net/pull_client.rs:250-262 | The sequence check accepts exactly strictly advancing numbers. |
| `PullClient.ApplyRuns` | src/net/pull_client.rs:328-347 | Runs are admitted in turn and each claim follows its admitted prefix. |
| `PullClient.ApplyPullPage` | src/net/pull_client.rs:222-349 | The in-place page application, its error and its cursors agree with the page semantics the link theorems use. |
| `PullLink.AdmitRunsEffect` | src/net/pull_client.rs:328-347 | Whatever is refused, held ops and claims move together over a prefix of channel A. |
| `PullLink.RunsAreGood` | src/net/pull_client.rs:298-326 | Grouping keeps every entry in place, each group one origin ascending. |
| `PullLink.OrderlyHasNoError` | src/net/pull_client.rs:298-326 | An honest server's channel A never breaks the puller's order rules. |
| `PullLink.BackfillEffect` | src/net/pull_client.rs:250-287 | However far channel B was admitted, every covered arrival up to the cursor is held. |
| `PullLink.CursorMoves` | src/net/pull_client.rs:274-294 | Moving the cursor so keeps every op accounted for. |
| `PullLink.ClaimsRise` | src/net/pull_client.rs:328-347 | Raising claims over a prefix of channel A keeps every op accounted for. |
| `PullLink.ApplyHonestPage` | src/net/pull_client.rs:222-349 | Applying an honest page keeps safety, can fail only because an op is refused, and never moves cursor or claims back. |
| `PullLink.ResumeIsCoherent` | src/net/pull_client.rs:626-626 | After a page went through, its token matches the puller's claims and cursor. |
| `PullLink.CompletePageHoldsAll` | src/net/pull_client.rs:619-622 | A complete page for a fresh request leaves the puller holding every op of the snapshot. |
| `PullDrain.AnswerIsHonest` | src/net/pull_server.rs:162-293 | The answer to a drain's request is a reset exactly when the epochs differ, and honest otherwise. |
| `PullDrain.PageMovesOn` | src/net/pull_client.rs:626-640 | Every token is new: its key was uncovered, or its position lies past the cursor. |
| `PullDrain.ProgressNoted` | src/net/pull_client.rs:628-640 | Stall detection does not fire after an honest page. |
| `PullDrain.Turn` | src/net/pull_client.rs:519-641 | One turn against any snapshot: safety, completeness on success, and which errors are possible. |
| `PullDrain.ArriveKeepsInv` | src/net/pull_client.rs:519-641 | A page in flight may arrive after the server's log has grown or been replaced. |
| `PullDrain.StepKeepsInv` | src/net/pull_client.rs:495-641 | Appends, restarts, requests, answers, arrivals, fresh drains and ops gained elsewhere all keep the invariant. |
| `PullDrain.EveryRunIsSafe` | src/net/pull_client.rs:495-641 | In every run each op of the server's log is held, above a claim or past the cursor; a finished drain holds its whole snapshot; only refusal or a repeated restart can fail it. |
| `PullDrain.EveryOpIsAccountedFor` | src/net/socket.rs:394-453 | In every run whatever the puller holds it held at the start, gained elsewhere, or took from a page after it passed its checks. |
| `PullDrain.StallIsNoticedExactly` | src/net/pull_client.rs:626-641 | Whatever a peer sends, a drain gives up for want of progress if and only if the last three incomplete pages left it at one position with one token. |
| `PullDrain.OneResetPerDrain` | src/net/pull_client.rs:585-598 | Whatever a peer sends, a second reset ends the drain. |
| `PullDrain.PageUsesUp` | src/net/pull_client.rs:519-641 | A page uses up uncovered arrivals or arrivals past the cursor, strictly when it carries a token. |
| `PullDrain.TurnIsCloser` | src/net/pull_client.rs:519-641 | Against an unchanging log each turn ends the drain or decreases its measure. |
| `PullDrain.PersistReset` | src/net/pull_client.rs:198-217 | A valid reset replaces the saved cursor, an invalid one nothing. |
| `PullDrain.TakePage` | src/net/pull_client.rs:585-641 | The loop body over the socket does what one turn says. |
| `PullDrain.DrainPullPages` | src/net/pull_client.rs:495-641 | The drain loop terminates against a fixed log, keeps safety, ends only in success or a refused op, and on success holds everything the server holds. |
| `PullTorn.PageAcrossIsTorn` | src/net/pull_server.rs:92-160 | A page whose origins, whose rows of each origin and whose arrivals were read at different times is honest for what each read saw, fresh or resumed, cut or not. |
| `PullTorn.ChannelAcrossIsChannel` | src/net/pull_server.rs:116-157 | Channel A read origin by origin is channel A of one log: the ops that had arrived when their own origin was read. |
| `PullTorn.CoveredExactly` | src/net/pull_client.rs:328-347 | A claim comes to cover an op exactly when channel A served one of its origin at or above it. |
| `PullTorn.TornPageSafeExactly` | src/log.rs:357-415 | However much of such a page is admitted before an op is refused, every op stays accounted for if and only if no op that arrived after its own origin was read was passed by the cursor uncovered and sorts no higher than one admitted from channel A; a page that goes through is admitted whole. |
| `PullTorn.TornPageGoesThrough` | src/net/pull_client.rs:222-349 | Such a page is never refused for its shape: if every op passes its checks it goes through. |
| `PullTorn.TornPageLosesOp` | src/net/pull_server.rs:116-157 | Nothing arrives between the channels, only between the reads of two origins: the page is complete and goes through, and an op ends neither held, above its claim nor past the cursor. |
| `Relay.CheckContiguous` | src/net/relay.rs:463-471 | Both ends' loop accepts exactly the numbers directly after the cursor up to the head. |
| `Relay.GetRelayOps` | src/net/server.rs:232-329 | The reply to every cursor, limit and log source, including both reset checks and the refusals. |
| `Relay.DecodeRelayResponse` | src/net/relay.rs:417-499 | A response is taken exactly when version, bounds, reset, contiguity and next cursor all fit, and read entry by entry. |
| `Relay.AcceptableExactly` | src/net/relay.rs:417-499 | Of whatever a peer sends, exactly a bare reset to the floor for a cursor not of the stream, and otherwise entries numbered directly after the cursor up to the next one, none in answer to a status request. |
| `Relay.AnswersAreAcceptable` | src/net/server.rs:232-329 | Whatever the log source returns, what the server sends the puller accepts and reads as it was given. |
| `Relay.RelayResetAgreement` | src/net/relay.rs:126-138 | A reset is sent exactly for the cursors the puller calls invalid, is accepted, and needs no second one. |
| `Relay.ReferenceLogIsServed` | src/net/server.rs:255-310 | The reference log never trips the server's own checks, though it may change between its two reads. |
| `Relay.TakeEntries` | src/net/sync.rs:268-313 | The batch loop: what is logged, the last accepted number, the counters and the abort. |
| `Relay.TakenExactly` | src/net/sync.rs:268-313 | The batch takes exactly the entries before the first that is not accepted or, being new, not written. |
| `Relay.SyncRelayOnce` | src/net/sync.rs:237-338 | Cursor and log after a page, an abort in mid-batch, a failed sync or replay, or a reset. |
| `Relay.PulledIsHeld` | src/net/sync.rs:268-329 | The cursor moves only over arrivals that are held. |
| `Relay.StepKeepsInv` | src/net/sync.rs:237-338 | Every step of the link, with a restart or append between request, state read, page read and arrival, keeps this. |
| `Relay.EveryRunHoldsUpTo` | src/net/sync.rs:237-338 | In every run the puller holds every arrival of its cursor's stream at or below the cursor. |
| `Relay.CleanPageAdvances` | src/net/sync.rs:268-330 | If every entry of a page can be taken, the sync and the replay work, the cursor moves by the whole page, short of the limit to the head, and every op of it is held. |
| `SqlLog.Greatest` | src/sqlite/oplog.rs:389-403 | A descending query with limit one returns the greatest key, nothing when there is none. |
| `SqlLog.Least` | src/sqlite/oplog_heads.rs:224-227 | An ascending query with limit one returns the least key. |
| `SqlLog.HeadFirstIsScan` | src/sqlite/oplog.rs:370-403 | With an exact head, the head-first read is the plain scan for every excluded op. |
| `SqlLog.UpsertKeepsHead` | src/sqlite/oplog_heads.rs:24-53 | After an append every row's head is still its greatest applied op. |
| `SqlLog.UpsertKeepsOrigin` | src/sqlite/oplog_heads.rs:54-73 | After an append every row's origin is still its least applied op's device. |
| `SqlLog.DemoteKeepsHead` | src/sqlite/oplog_heads.rs:83-176 | Demotion re-elects the greatest remaining op or drops the head. |
| `SqlLog.DemoteKeepsOriginExactly` | src/sqlite/oplog_heads.rs:77-82 | Demotion leaves the origin exact if and only if the op was not the row's least applied op, or was alone, or the next least is of its device. |
| `SqlLog.DemoteCanMisstateOrigin` | src/sqlite/oplog_heads.rs:77-82 | A concrete demotion after which the stored origin is no longer the least op's device. |
| `SqlLog.StepKeepsOriginsExactly` | src/sqlite/oplog_heads.rs:24-254 | From exact origins a step leaves all of them exact if and only if it is no demotion or one that meets the condition. |
| `SqlLog.RebuildIsExact` | src/sqlite/oplog_heads.rs:178-254 | A rebuild makes head and origin exact whatever happened to the partition, and touches no other row. |
| `SqlLog.EveryHeadIsExact` | src/sqlite/oplog_heads.rs:24-254 | After any appends, demotions, promotions and moves every head is the greatest applied op or absent, and reads agree with scans. |
| `SqlLog.EveryOriginIsExact` | src/sqlite/oplog_heads.rs:24-254 | Over any run every origin is exact at every point if and only if each demotion in it met that condition. |
| `SqlLog.UpsertHead` | src/sqlite/oplog_heads.rs:24-75 | The two statements on the heads table. |
| `SqlLog.AppendOp` | src/sqlite/oplog.rs:30-78 | A new op is logged, numbered next and folded into its head; a repeat changes nothing. |
| `SqlLog.DemoteHead` | src/sqlite/oplog_heads.rs:83-176 | The demotion statements. |
| `SqlLog.RebuildHead` | src/sqlite/oplog_heads.rs:187-254 | The rebuild statements end with an exact head and origin. |
| `SqlLog.NewestApplied` | src/sqlite/oplog.rs:363-404 | The guard's read: on a row with an exact head, the greatest applied op other than the excluded one. |
| `Compaction.PageIsExact` | src/sqlite/retention.rs:397-411 | A scan page lists its numbers in order and leaves none out. |
| `Compaction.ProbeShadow` | src/sqlite/retention.rs:436-459 | Outside the bulk tables a row passes exactly with `keep` greater applied ops and a smaller one. |
| `Compaction.CandidateExactly` | src/sqlite/retention.rs:397-485 | Said of the tables: a candidate is an applied op that arrived by the safe floor and before another, is not pinned, and outside the bulk tables is no head, has `keep` greater applied ops of its row and a smaller one. |
| `Compaction.ProbePins` | src/sqlite/retention.rs:463-485 | A row that passed is picked exactly when it is a candidate: unpinned and, outside the bulk tables, no head. |
| `Compaction.ScanRows` | src/sqlite/retention.rs:430-489 | One page of rows: everything picked is a candidate and nothing before the stop is passed over. |
| `Compaction.CompactionCandidates` | src/sqlite/retention.rs:325-496 | The scan returns candidates only, in arrival order, and all of them up to where it got; with the cursor back at zero all there are, unless a first scan had no room or no time to look at a row; it stops before that only with enough candidates, enough rows looked at or no time left. |
| `Compaction.DeleteOpsChunk` | src/sqlite/retention.rs:498-594 | The deletes re-check pins and heads, remove op and arrival together, and raise the floor to the greatest number removed. |
| `Compaction.DeletedExactly` | src/sqlite/retention.rs:498-594 | A chunk removes exactly those of its ops that are logged, not pinned and, outside the bulk tables, no head; an arrival goes exactly with its op. |
| `CompactionRuns.ShadowedIsInner` | src/sqlite/retention.rs:433-461 | With two or more kept per row a candidate lies below two applied ops and above one. |
| `CompactionRuns.InnerSurvives` | src/sqlite/retention.rs:433-461 | The two greatest and the least op of a row are never candidates, so deletions leave them. |
| `CompactionRuns.SameAnswers` | src/sqlite/oplog.rs:363-404 | A row that lost only such ops answers every exclusion, and names its earliest op, as before. |
| `CompactionRuns.AlikeExactly` | src/sqlite/oplog.rs:363-404 | Two sets of applied ops answer every exclusion and name their earliest op alike if and only if what they do not share lies below two and above one op they share. |
| `CompactionRuns.StepKeepsRow` | src/sqlite/retention.rs:498-594 | Without demotions and with two kept per row, appends, scans and deletes leave what is missing or picked in the middle of its row. |
| `CompactionRuns.StepKeepsArrivals` | src/sqlite/retention.rs:540-593 | Appends, scans, deletes and demotions keep arrivals and ops one to one, holes at or below the floor, and the newest arrival. |
| `CompactionRuns.EveryRunKeepsArrivals` | src/sqlite/retention.rs:397-411 | So it is after any mix of appends, demotions and deletes of scanned candidates, whatever the policy keeps. |
| `CompactionRuns.CompactionIsInvisible` | src/sqlite/retention.rs:430-488 | With two or more kept per row and no demotions, after any number of passes every guard read and every row's earliest op and origin are as if nothing had been deleted. |
| `CompactionRuns.CompactionIsInvisibleExactly` | src/sqlite/retention.rs:433-461 | Every run under a set of policies is invisible on a row outside the bulk tables if and only if each policy keeps at least two ops per row; with none or one kept, scanning and deleting the middle of three ops is seen. |
| `CompactionRuns.PolicyIsKept` | src/sqlite/retention.rs:433-461 | Over any run without demotions whose scans keep at least that many ops per row, every op of the whole log with fewer greater applied ops of its row, and the row's least one, is still stored. |
| `CompactionRuns.PinnedIsKept` | src/sqlite/retention.rs:463-485 | An op that every delete of a run finds pinned is never removed. |
| `CompactionRuns.StepExactly` | src/sqlite/oplog_heads.rs:77-176 | From a state no reader of the row can tell from the log without deletions, a step leads to another if and only if it is careful: a delete or demotion leaves two shared ops above and one below every op the logs do not share, and no op that was demoted and then deleted comes back outside the middle. |
| `CompactionRuns.AgreeThroughoutExactly` | src/sqlite/retention.rs:498-594 | With demotions anywhere, no reader of a row outside the bulk tables can ever tell that anything was deleted if and only if every step of the run was careful. |
| `CompactionRuns.DemotionIsSeen` | src/sqlite/oplog_heads.rs:83-176 | With two kept per row: a scan picks the second of four ops, the greatest is demoted, the pick is deleted, and a guard read changes. |
| `CompactionRuns.PageIsContiguous` | src/sqlite/oplog.rs:143-180 | Without holes past the cursor a relay page is contiguous. |
| `CompactionRuns.PullersAreServed` | src/net/server.rs:255-310 | After any such run the server answers every well-formed request with a reset or a page, however early its log source cuts the page, and never refuses its own page. |
| `Horizon.HorizonRelayFloor` | src/sqlite/retention.rs:165-220 | The search terminates over any holes, returns an arrival at or before the cutoff or zero, and with non-decreasing times separates old from new exactly. |
| `Horizon.MinPeerAck` | src/sqlite/coverage.rs:345-415 | Zero if some peer is unreadable or live without an ack, otherwise the least live ack, nothing without live peers. |
| `Horizon.RecordedIsHighest` | src/sqlite/coverage.rs:293-320 | The recorded position of the current stream is the greatest the peer presented in it or had before, in whatever order; presentations of another stream leave no trace. |
| `Horizon.SafeRelayFloor` | src/sqlite/retention.rs:222-258 | An arrival younger than the cutoff lies at or below the floor if and only if every trusted peer is readable and every live one has acknowledged past it in the current stream; only then is it ever a candidate. |
| `RowWrites.WrittenExactly` | src/sqlite/rows.rs:147-289 | Column by column: other rows stay; nothing happens on a table that is missing, device-local or lacks a key column, or for unknown columns alone; a delete takes the row; an upsert sets the named columns that exist and leaves the others, at their defaults in a new row. |
| `RowWrites.RowTable.WriteRow` | src/sqlite/rows.rs:147-289 | The table effect of what the local schema leaves of an op: nothing on a missing or device-local table, without a key column or after a constraint failure; an insert gives unnamed columns their defaults, an update leaves them; no change when it reports none. |
| `RowWrites.WriteRowIfNewer` | src/sqlite/rows.rs:73-86 | The write is attempted exactly when no other logged op of the row is as great. |
| `RowWrites.VerdictIgnoresItself` | src/sqlite/oplog.rs:347-358 | The verdict on an op is the same whether or not it is logged. |
| `RowWrites.OrderOfLoggingIsFree` | src/sqlite/rows.rs:73-86 | Logging before or after the write comes to the same. |
| `RowWrites.VerdictExactly` | src/sqlite/oplog.rs:347-404 | After any deliveries the guard, read off the heads, passes an op exactly when no delivered op of its row sorts above it. |
| `RowWrites.RowsAreImages` | src/sqlite/rows.rs:73-86 | Heads, guard and tables together leave a row as the running merge of the ops that were greatest when they came. |
| `RowWrites.DeliveriesConverge` | src/sqlite/rows.rs:73-86 | A settled row shows exactly what its greatest op alone would: settled by a delete, or by an upsert through which no upsert of the row shows. |
| `RowWrites.SameOpsSameRows` | src/sqlite/rows.rs:73-86 | Any two nodes with one schema that are sent the same ops, in any order with any repeats, show the same rows if and only if every row is settled in that way. |
| `RowWrites.PartialImagesDiverge` | src/sqlite/rows.rs:187-231 | Whenever an upsert shows through the row's greatest upsert, two orders of the same ops leave the row different. |
| `RowWrites.ConvergesExactly` | src/sqlite/rows.rs:73-86 | Every order and repetition leaves a row the same if and only if its table is not written here, or its greatest op is a delete, or each upsert of the row gives every column the greatest one leaves out its default, and names none if that one names none. |
| `RowWrites.FullImagesSettle` | src/sqlite/rows.rs:187-231 | Ops that carry every column of their table meet that condition. |
| `Replay.KvStore.Apply` | src/kv.rs:71-81 | A put binds its key, a delete unbinds it, nothing else changes. |
| `Replay.ApplyOps` | src/log.rs:252-271 | The loop applies decoded ops of its store in order and stops at the first that does not decode. |
| `Replay.ReachedExactly` | src/log.rs:252-271 | Every op of the store before the point a replay reaches decodes, and the op there does not. |
| `Replay.LastWriteWins` | src/log.rs:252-271 | Each key ends as the last put or delete of it before the first undecodable op says, and a key none of them writes keeps what it had. |
| `Replay.ReplayLog` | src/log.rs:224-226 | Replay applies the whole log in key order. |
| `Replay.SameOpsReplayAlike` | src/log.rs:224-271 | Two logs holding the same ops replay to the same outcome. |
| `Replay.GreatestWriteWins` | src/log.rs:224-271 | Whatever order the ops came in, a replay that goes through leaves each key as the op with the greatest order key among those that write it says. |
| `Replay.ReplayForgets` | src/log.rs:252-271 | A key the log touches ends the same whatever the store held. |
| `Replay.NoTraceExactly` | src/log.rs:224-271 | Every replay of a part of the log can be replayed over without trace if and only if each key that a decodable put anywhere in the log binds is touched before the first op that does not decode. |
| `Replay.UnreachedLeavesTrace` | src/log.rs:252-271 | A key bound only behind the first undecodable op stays behind when the log is replayed over it. |
| `Replay.ReplayReaches` | src/log.rs:252-271 | A replay is the replay of the ops before the store's first undecodable one. |
| `Replay.DecodableLeavesNoTrace` | src/log.rs:224-271 | A log that decodes throughout can always be replayed over without trace. |
| `Durable.LengthIsTruncated` | src/durable.rs:79-80 | The length prefix holds the length modulo 2^32. |
| `Durable.FrameRoundTrip` | src/durable.rs:79-85 | A frame reads back as its op if and only if the envelope is shorter than 2^32 bytes. |
| `Durable.TornIsNoFrame` | src/durable.rs:122-138 | A proper part of a frame is never read as a frame. |
| `Durable.ParseReadsFrames` | src/durable.rs:106-145 | Whole frames before a tear read back exactly, and reading ends at the tear. |
| `Durable.PrefixOfFrames` | src/durable.rs:1-7 | Any prefix of the file is whole frames and a torn one. |
| `Durable.OplogWriter.constructor` | src/durable.rs:36-47 | Opening stands at the end of the file as it is, not poisoned. |
| `Durable.OplogWriter.Append` | src/durable.rs:59-85 | For every op and every outcome of the file system: refused once poisoned, otherwise the frame, its rollback or the poisoning, byte by byte. |
| `Durable.OplogWriter.SyncAfterBatch` | src/durable.rs:91-94 | Everything in the file has reached the disk, or the sync failed and nothing changed. |
| `Durable.WriteKeepsInv` | src/durable.rs:49-77 | One append adds the whole frame, or leaves no trace, or leaves a writer that will not write again. |
| `Durable.CrashKeepsInv` | src/durable.rs:87-94 | A crash leaves a tidy file that reads as a part of what was stored and at least what was synced. |
| `Durable.RecoverExactly` | src/durable.rs:96-153 | A restart leaves whole frames under the writer whatever it cannot read, and keeps everything synced if and only if no synced frame's body is one it takes for a torn tail. |
| `Durable.EveryFileIsTidy` | src/durable.rs:20-94 | Through any appends, failures, syncs, crashes, restarts and replays that meet any trouble no complete frame follows a torn one, as long as no replay beside the open writer takes frames away. |
| `Durable.SyncedIsKeptExactly` | src/durable.rs:87-94 | What syncs put on the disk is read back, in its order, by every later replay if and only if no replay was unable to read the body of a synced frame. |
| `Durable.BadBodyLosesSynced` | src/durable.rs:131-151 | Two ops written and synced, a crash that loses nothing, and a restart that cannot read the first body: both are cut off the file. |
| `Durable.RereadExactly` | src/bin/pnsd.rs:530-545 | A replay beside the open writer leaves it at the end of whole frames if and only if it takes none of them away. |
| `Durable.TidyExactly` | src/bin/pnsd.rs:530-545 | Every writer of a history stands at the end of whole frames throughout if and only if no such replay took frames away. |
| `Durable.WriteIsBuried` | src/durable.rs:59-77 | After such a cut an append succeeds behind a gap of zeroes and no replay reads it. |
| `Durable.ReadFrame` | src/durable.rs:123-139 | One frame of the reader, its end, or the failure of a length; a body that cannot be read is taken for the end. |
| `Durable.ReadFrames` | src/durable.rs:116-145 | The read loop appends the verified ops of the frames it reads and counts the new ones, whatever it cannot read. |
| `Durable.ReplayOplogFile` | src/durable.rs:106-153 | Replay of any bytes gives the log exactly the verified ops of the frames read before the first torn, undecodable or unreadable one, and cuts the file there unless it fails. |
| `Durable.RestoredHolds` | src/durable.rs:106-145 | The log then holds exactly the ids it held and those of the ops that verify, in valid order, and only grows. |
| `Durable.RestoredInOrder` | src/durable.rs:106-145 | Distinct new ops that all verify arrive in the order of the file. |
| `RelayDurable.BatchIsHeld` | src/net/sync.rs:268-313 | After a batch every op the puller holds has its complete frame in the file, whatever write failed. |
| `RelayDurable.FileMirrorsLog` | src/durable.rs:1-7 | In every run, across any crashes, the file holds each op of the log once, and no other op while its writer still writes; replaying it into an empty log gives its ops back in order. |
| `RelayDurable.StepExactly` | src/bin/pnsd.rs:599-619 | Appends, restarts and replies of the peer, batches, syncs, saved keys, saved cursors and other links' pulls keep file, log and cursors in step; a crash does if and only if the restart spares what the saved cursors cover. |
| `RelayDurable.CrashesHoldUpTo` | src/bin/pnsd.rs:391-406 | Across crashes and such restarts the puller holds every arrival of its cursor's stream at or below the cursor. |
| `RelayDurable.SavedCursorIsKeptExactly` | src/net/sync.rs:315-329 | At every point of a run every arrival up to any saved cursor is on the disk if and only if no restart met a body it could not read at or before the frame of such an arrival. |
| `RelayDurable.ReadableSpares` | src/durable.rs:131-151 | A restart that can read the body of every synced frame loses nothing a saved cursor covers. |
| `RelayDurable.BadBodyLosesSaved` | src/durable.rs:131-151 | A restart that cannot read the first body goes on from a saved cursor of the stream with nothing held. |
| `Limits.Limiter.Allow` | src/oauth/mod.rs:199-217 | A source's verdict depends on its own window alone; the sweep takes only windows that ran out. |
| `Limits.PassedIsBounded` | src/oauth/mod.rs:199-217 | No stretch of the window's length lets more than 2 per - 1 events through. |
| `Limits.PromiseKeptExactly` | src/oauth/mod.rs:189-217 | The documented limit in any window holds if and only if the limit is at most one event or the window at most one second. |
| `OAuth.AuthorizeAsk` | src/oauth/server.rs:282-382 | An ask is filed exactly when the request passes every check, with its client, redirect and challenge and no code; an error goes back only over a redirect the client registered; nothing else changes and no code becomes redeemable. |
| `OAuth.MemoryStore.MintCode` | src/oauth/store.rs:75-85 | An ask gets at most one code. |
| `OAuth.MemoryStore.RedeemCode` | src/oauth/store.rs:87-97 | A code's unspent ask is handed out and marked spent; otherwise nothing matches and nothing changes. |
| `OAuth.MemoryStore.PutToken` | src/oauth/store.rs:99-109 | A held token is never overwritten. |
| `OAuth.MemoryStore.RevokeToken` | src/oauth/store.rs:111-120 | The first revocation stands. |
| `OAuth.MemoryStore.TouchToken` | src/oauth/store.rs:122-129 | Only a live token is touched. |
| `OAuth.MemoryStore.TokenByHash` | src/oauth/store.rs:135-143 | A token with the hash, or none has it. |
| `OAuth.RedeemForToken` | src/oauth/server.rs:426-509 | A token comes out exactly when the code's ask passes every check, and the code is spent either way. |
| `OAuth.PollAsk` | src/oauth/server.rs:384-424 | A code is shown exactly while unspent and fresh, minted exactly for an approved ask in time, and waiting and denial say what the person said. |
| `OAuth.RevokeBearer` | src/oauth/server.rs:511-516 | A token with the bearer's hash is revoked and nothing else changes; an unknown bearer changes nothing. |
| `OAuth.AdmitBearer` | src/oauth/server.rs:518-537 | A token is admitted only under its hash, unrevoked and strictly before its expiry, and the only token under the hash is admitted whenever it is so; its use is noted at most once a minute, and nothing else changes. |
| `OAuth.StepKeepsInv` | src/oauth/server.rs:282-538 | Every interleaving of store calls keeps asks, requests under way, tokens and traces in order. |
| `OAuth.EveryAskIsRegistered` | src/oauth/server.rs:282-382 | In every run each ask is of a registered client, to a redirect it registered, with a well-formed challenge. |
| `OAuth.EveryTokenIsTraced` | src/oauth/server.rs:426-509 | Every token traces to one approved ask with matching client, verifier and redirect, one the client registered, and a code at most 600 seconds old. |
| `OAuth.OneTokenPerAsk` | src/oauth/store.rs:87-97 | One ask, and one code, yields at most one token. |
| `OAuth.RevokedIsNeverAdmitted` | src/oauth/server.rs:511-538 | Once a token is revoked no later lookup under its hash finds a live one. |
| `OAuth.EveryAdmissionIsInTime` | src/oauth/mod.rs:274-276 | In every run a request admits a token only for a moment before the token's expiry. |
| `OAuth.TokenStaysAsIssued` | src/oauth/store.rs:99-129 | In every run a token keeps its hash, client, issue and expiry times, and its first revocation stands. |
| `OAuth.AskStaysAsMade` | src/oauth/store.rs:66-97 | In every run an ask stays as it was made and keeps the first code it gets, once spent it stays spent. |
| `OAuth.EveryCodeIsTimely` | src/oauth/server.rs:384-424 | In every run every code was minted within fifteen minutes of its ask. |
| `OAuth.AdmittedWasLookedUp` | src/oauth/server.rs:518-537 | A request about to admit a token at any point after its revocation looked the token up before, and has been on its way ever since. |
| `OAuth.LateAdmissionIsReached` | src/oauth/server.rs:518-537 | A run from the start in which a token is looked up, then revoked, and the first request is still about to admit it. |
| `Watch.StepKeepsInv` | src/net/watch.rs:35-150 | A parked watcher found nothing in what it read, and what came later without a tick belongs to batches nobody has published. |
| `Watch.NoWakeUpIsLost` | src/net/watch.rs:102-150 | A watcher asleep over a log that has what it waits for has a tick pending, or an appender is still about to tick, or a batch with it broke off unpublished; late low-order ops included. |
| `Watch.ChangedExactly` | src/net/watch.rs:56-98 | A log has changed for a sleeper exactly when an op it waits for came after what it read. |
| `Watch.StuckExactly` | src/bin/pnsd.rs:621-641 | A sleeper is stuck if and only if a batch with what it waits for broke off past what it read and nobody has published since it marked or is about to. |
| `Watch.BrokenBatchStrands` | src/net/sync.rs:268-338 | A run in which one op is stored, the op behind it is refused, and a relay watcher sleeps over it with nothing to wake it. |
| `Watch.WokenWatcherReturns` | src/net/watch.rs:56-98 | A watcher that wakes to such a log returns on its next read. |
| `Watch.ReadReturnsExactly` | src/net/watch.rs:56-98 | A read returns exactly when the stream is another one, has moved from the watcher's position, or holds an op above the known one. |
| `Watch.SleeperIsUpToDate` | src/net/watch.rs:102-150 | In every run only watchers of this stream sleep, each at the position it asked about or over nothing above the key it knows. |

## Left out

- Cryptography, base64, hex and postcard text: ops travel as values, and verification is a parameter.
- Relay.GetRelayOps: the caller's authentication and log sources that are missing or fail are left out.
- HTTP routing, request signing, replay caches and status codes other than the relay's own refusals.
- Pull v3 served from the SQLite log: the page theorems are for the reference log, whose floor is 0; the reset rule is stated for every floor.
- Audit drains and store-scoped drains: each fresh complete page of theirs is exact, but the drain and link theorems are for neither.
- PullDrain.DrainPullPages: previews, the snapshot recommendation and HTTP outcomes are left out. A preview only adds ops, which the link's runs allow at any step, and the page builder modelled here never recommends a snapshot.
- Several links sharing one set of claims, and `skip_unattested`: a claim may then pass an op this link has not seen.
- Store sweeps, and v1 pulls in semantic order: neither has a closing fresh exchange.
- The store behind the pull socket: only whether replaying into it succeeds matters to the link; replay itself is in `Replay.dfy`.
- SQL text, indexes and foreign keys: the table effect alone is modelled. The schema is not part of the repository; a new arrival takes the number after the greatest one, which the never-deleted newest arrival makes equal to an ever-increasing number. HLC values are taken to be below 2^63, so that signed columns order as keys do.
- RowWrites.RowTable.WriteRow: an upsert names the key columns of its row with the row's own values, defaults are constants, a constraint failure is an input rather than derived from a schema, and identifiers that cannot be quoted and other SQL errors are left out. The delivery theorems are for writes that are not refused.
- SqlLog.UpsertHead: heads carry their order key and origin; the payload copied beside them, and its trimming, are left out.
- SqlLog.AppendOp: envelopes and the self-coverage of local ops are left out.
- SqlLog.DemoteHead: the payload column of the re-elected head is left out.
- SqlLog.RebuildHead: the payload column of the rebuilt head is left out.
- Bulk self-draining tables in the guard theorem: their heads' ops may be deleted; the arrival theorem covers them.
- Promotions and moves between a scan and its deletes, and `delete_row_below`: the compaction runs interleave appends and demotions.
- Epoch rotation of the SQLite stream, coverage priming and self-coverage of local ops.
- Compaction.CompactionCandidates: the deadline is an arbitrary oracle, and the table does not change between two pages of one scan.
- Horizon.SafeRelayFloor: one cutoff stands for both clock reads, and times compare as numbers rather than RFC 3339 text.
- Durable.EveryFileIsTidy: envelopes are shorter than 2^32 bytes; what happens otherwise is in `Durable.FrameRoundTrip`. A crash leaves a prefix of the file.
- RelayDurable.SavedCursorIsKeptExactly: a device's key is saved before its ops are accepted, as the daemon does, and stays saved. A restart that fails is one more crash, and the second replay after new keys were learned is modelled in `Durable.dfy` only.
- OAuth.AuthorizeAsk: fields arrive trimmed, whether the scope is known is an input, and notifying the person and building the redirect text are left out.
- OAuth.RedeemForToken: scopes, the grant type, names, issuers and the trimming of request fields are left out, and the expiry time is an input.
- OAuth.StepKeepsInv: ask ids, codes and token hashes are taken to be new when drawn at random, and registration files a client without the checks on its redirects.
- Limits.PassedIsBounded: event times do not go back.
- Watch.NoWakeUpIsLost: the tick counter does not wrap, the publisher is not dropped, and the stream keeps its epoch.
- Quarantine, pending edges, callback outboxes, row reconciliation, tunnels, discovery, ports, usage and rosters.
