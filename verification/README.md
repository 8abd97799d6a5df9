# Verified model of the NMP Nostr library

This project models the parts of the NMP workspace whose behaviour is hardest to see from the code alone, and proves what
they promise, in Dafny 4.11; `dafny verify dfyconfig.toml` verifies the whole project.

* **NIP-11 acquisition** (`RelayInformation`, `AcquisitionTable`, `Acquisition`, `AcquisitionSafety`, `AcquisitionRuns`,
  `AcquisitionProgress`, `AcquisitionWorkers`, `AcquisitionOverlap`, `AcquisitionProvenance`, `AcquisitionAddressing`).
  The relay-information service is a single-flight cache shared by callers, workers and a closer. The table under the lock is a class proved against pure functions; the
  service is a transition system whose steps are the lock-held sections, the permit waits, the worker's phases, the drop
  of a waiting caller and the phases of `close`. What happens outside the lock is a step of its own: a dropped caller
  signals its flight after leaving the table, and `close` signals each flight before it sends the refusal. The theorems
  hold for every interleaving.
* **NIP-10 and NIP-22 threads** (`Text`, `Tagging`, `NoteThreads`, `RowTable`, `ThreadPositions`,
  `Comments`, `CommentThreads`, `CommentTargets`, `CommentDecoding`). One crate prints reference rows, another decodes them strictly, a third walks parents. The theorems
  are inverses of printing and reading, by induction over reply and comment chains of any length.
* **NIP-65 coordinator** (`RelayListCoordinator`, `RelayListRuns`). A class proved against a state machine over reroot, delta
  and settle, with theorems over every run.
* **Local signer** (`Octets`, `ChaCha20`, `Hkdf`, `PaddedLength`, `Keys`, `Schnorr`, `Nip44`). The in-place ChaCha20, HMAC and
  HKDF loops are proved against RFC 8439, RFC 2104 and RFC 5869; NIP-44 messages and BIP-340 signatures are proved correct on
  top. A curve point is written as its discrete logarithm, with x(-P) = x(P) and opposite parity of y; SHA-256, base64 and
  UTF-8 are parameters.
* **NIP-29 records and predicates** (`RowDeltas`, `GroupRecords`, `GroupSnapshots`, `GroupProjection`,
  `GroupPredicates`). Folding rows into
  per-host records, the aggregate with its disagreements, and the lowering of group predicates to bindings pinned to one
  host. `RowDeltas` holds the rows and deltas that `RowTable` shares.
* **Plain-text content** (`Content`, `ContentParser`, `ContentMeaning`, `StableIds`). Bounding, paragraphs, tokens, line breaks and ids.
* **Codecs** (`AtomIdentity`, `WebSocket`, `WebSocketServer`, `ListEdits`). The live-atom digest, WebSocket framing in both
  directions, and the replayable edits of contact and group lists.

## What the code does not do

Six promises are not met by the code; the model follows the code, exhibits the failing inputs and states exactly when
the promise holds.

* `crates/nmp-nip22/src/intent.rs:11-15` offers any event as the target of a comment. A comment composed on a kind:1 event
  never decodes (`CommentThreads.CommentOnNoteNeverDecodes`): its parent rows are NIP-10 rows without a `k` row. A comment
  on any other event decodes exactly when the root that event names reads and the event is that root or a comment
  (`CommentTargets.CommentDecodesExactly`). Outside NIP-22 threads this shuts out replies
  (`CommentThreads.CommentOnPlainEvent`); inside them it shuts out whatever is neither a comment nor addressable nor the
  scope's own root (`CommentTargets.ScopedEventsFail`), for one a voice reply (`CommentTargets.VoiceRepliesFail`).
* A comment on a general external id that claims the podcast kind decodes only if the value has the podcast prefix and more
  (`CommentThreads.CommentOnRootReadsBack`).
* A reply whose parent is not held is promised depth 1 (`crates/nmp-canary/src/thread.rs:119-124`); it gets depth 1 if the
  parent is the root and no depth otherwise (`NoteThreads.MissingParentHasNoDepth`). The depth is right exactly when every
  row below the root is held and signed and the depth is at most 64 (`NoteThreads.DepthIsTrueExactly`).
* At most eight fetches are promised to be live (`crates/nmp-nip11/src/service.rs:36-40` and `395-398`). A cancelled flight
  gives its permit back while its worker still runs, so any number can be fetching, each at a relay of its own
  (`AcquisitionOverlap.FetchesAreUnbounded`). At most eight are live exactly while the workers without an installed flight
  are no more than the permits no installed flight holds (`AcquisitionWorkers.LiveIsWithinEightExactly`); beyond eight there
  are never more than the workers whose flight was cancelled or closed and who have not yet ended
  (`AcquisitionWorkers.LiveWorkersAreBounded`).
* A coordinator without sources can report absence although nobody was asked (`RelayListRuns.AbsenceWithoutASource`): every
  absence of every run is earned by a settlement exactly when there is a source (`RelayListRuns.AbsenceIsEarnedExactly`).
* The relay laboratory's client sends a text of 65536 octets or more with a truncated length field, so the relay reads a text
  back exactly when it is shorter (`WebSocketServer.SentReadsBack`), and a session exactly when every text of it is
  (`WebSocketServer.SessionReadsBack`).

NIP-44 decryption never looks at the fill after the text: any fill of the right length under a valid authentication code is
accepted (`Nip44.UnpaddingIsExact`). The digest of a live atom frames each URL with a length of 32 bits, which tells lists of
octet strings apart exactly while every string is shorter than 2^32 octets (`AtomIdentity.FramingIsFaithfulExactly`).

## Model

| member | source | states |
|---|---|---|
| `AcquisitionTable.RelayInformationTable.RegisterCaller` | crates/nmp-nip11/src/service.rs:447-528 | the in-place registration equals the pure `Register`: refuse, serve a fresh copy, join, ask for admission, or install the next generation |
| `AcquisitionTable.RelayInformationTable.CompleteFlight` | crates/nmp-nip11/src/service.rs:889-1006 | the in-place completion equals `Complete` with the victim the scan finds; a superseded generation changes nothing |
| `AcquisitionTable.RelayInformationTable.CancelUnobserved` | crates/nmp-nip11/src/service.rs:827-860 | a flight is removed exactly when it is the installed generation and nobody listens |
| `AcquisitionTable.RelayInformationTable.Read` | crates/nmp-nip11/src/service.rs:531-555 | a cached read serves the copy with its freshness and only stamps the access |
| `AcquisitionTable.RelayInformationTable.Close` | crates/nmp-nip11/src/service.rs:609-625 | the table is closed for good and hands over exactly the installed flights |
| `AcquisitionTable.RelayInformationTable.FindVictim` | crates/nmp-nip11/src/service.rs:935-960 | the scan finds an idle cached entry that no other was accessed before, or none exists |
| `AcquisitionTable.RegistrationIsExact` | crates/nmp-nip11/src/service.rs:447-528 | each of the five answers is given exactly in its case: the cached copy exactly if the table is open, the caller asked for the cache and the copy has not expired |
| `AcquisitionTable.RegistrationEffects` | crates/nmp-nip11/src/service.rs:462-464 | every copy and every other entry stays, only an answered flight is installed, and the relay becomes the most recently accessed |
| `AcquisitionTable.ReadIsExact` | crates/nmp-nip11/src/service.rs:531-555 | a read answers with the cached copy and its last error, fresh exactly until it expires, and moves only the access stamp |
| `AcquisitionTable.CancelIsExact` | crates/nmp-nip11/src/service.rs:827-860 | a flight goes exactly if it is the installed one and nobody listens; its copy stays and an empty entry goes |
| `AcquisitionTable.CompletionIsExact` | crates/nmp-nip11/src/service.rs:889-1006 | a success is delivered as it is and kept unless the table is full of copies being refreshed; a failure over a copy delivers that copy marked stale unless the service closed or the URL held credentials; any other failure is delivered as it is |
| `RelayInformation.FinishFetch` | crates/nmp-nip11/src/service.rs:680-742 | a fetch succeeds exactly if its 200 body is accepted or its 304 has a copy, and a refused body yields its own refusal |
| `RelayInformation.FetchedDocument` | crates/nmp-nip11/src/service.rs:680-742 | the headers, the expiry and the freshness of a success, for a 200 and for a 304 |
| `RelayInformation.Validators` | crates/nmp-nip11/src/service.rs:663-672 | both validators of the copy are sent, the missing one empty, and none exactly if it has neither |
| `AcquisitionTable.VictimIsUnique` | crates/nmp-nip11/src/service.rs:935-960 | in a sound table the victim is determined |
| `AcquisitionTable.CompleteTouchesOnlyTheVictim` | crates/nmp-nip11/src/service.rs:915-998 | a completion leaves every other copy alone but the least recently accessed idle one, and that only when the table is full |
| `AcquisitionTable.CompleteLeavesNoEmptyEntry` | crates/nmp-nip11/src/service.rs:991-998 | after an effective completion every entry has a copy or a flight |
| `AcquisitionTable.CompleteKeepsSound` | crates/nmp-nip11/src/service.rs:889-1006 | completion keeps the cache bound, distinct access stamps below the clock, and each copy filed under its own relay |
| `AcquisitionSafety.StepPreserves` | crates/nmp-nip11/src/service.rs:400-420 | every step of every caller, worker and closer keeps the service invariant |
| `AcquisitionRuns.RunsAreSafe` | crates/nmp-nip11/src/service.rs:400-678 | the invariant holds at every moment of every run |
| `AcquisitionRuns.OneTerminalResult` | crates/nmp-nip11/src/service.rs:792-817 | a generation's channel gets at most one terminal value in any run |
| `AcquisitionRuns.SubscribersAreServed` | crates/nmp-nip11/src/service.rs:609-632 | a waiting caller whose sender is gone already has its terminal value; one whose fetch was told to stop has the refusal, or `close` still holds its flight and is about to send it |
| `AcquisitionProgress.WaitersCanProgress` | crates/nmp-nip11/src/service.rs:635-678 | while a waiter's channel is silent a step that serves its generation is enabled |
| `AcquisitionProgress.ServingLowersDistance` | crates/nmp-nip11/src/service.rs:609-678 | every step that serves a waiter's generation brings its value nearer |
| `AcquisitionProgress.OthersKeepDistance` | crates/nmp-nip11/src/service.rs:609-678 | no other step of any caller, worker or closer takes it further away |
| `AcquisitionProgress.WaitersAreFourStepsAway` | crates/nmp-nip11/src/service.rs:609-678 | in every run a waiter is at most four serving steps from its value, whatever happens between them |
| `AcquisitionRuns.LateWorkersChangeNothing` | crates/nmp-nip11/src/service.rs:635-742 | in every run, once a generation's flight is superseded, cancelled or closed away its worker never publishes, and each start, answer or landing of it changes that worker and nothing else |
| `AcquisitionRuns.CopyIsStableUnderFlight` | crates/nmp-nip11/src/service.rs:635-678 | from installation to completion a flight's relay keeps the very copy it started over |
| `AcquisitionRuns.PayloadsChangeOnlyByBody` | crates/nmp-nip11/src/service.rs:680-742 | a payload is replaced only by a 200 body; a 304 lands on the copy its worker set out with and keeps its payload |
| `AcquisitionRuns.RevalidationIsOfTheCopySent` | crates/nmp-nip11/src/service.rs:635-742 | the conditional headers a generation set out with are those of the very copy its answer lands on |
| `AcquisitionProvenance.ServableCopiesWereStored` | crates/nmp-nip11/src/service.rs:920-970 | in every run a copy that can still be served was stored, with its expiry, by an earlier successful landing of its relay |
| `AcquisitionProvenance.CacheAnswersWereStored` | crates/nmp-nip11/src/service.rs:465-473 | a caller answered at registration asked for the cache and gets what an earlier landing of its relay stored, before its expiry |
| `AcquisitionProvenance.CachedDocumentsWereAccepted` | crates/nmp-nip11/src/service.rs:680-742 | in every run the payload of every cached copy was the accepted body of an earlier 200 of that relay |
| `AcquisitionProvenance.ReturnedDocumentsWereAccepted` | crates/nmp-nip11/src/service.rs:400-420 | whatever document a caller returns with was such a body too |
| `AcquisitionProvenance.CallersShareTheValue` | crates/nmp-nip11/src/service.rs:777-825 | a caller that waited returns with its generation's value, the same for all that waited for it |
| `AcquisitionProvenance.ValuesAreLandings` | crates/nmp-nip11/src/service.rs:1000-1006 | a generation's value is what its landing delivered, or the refusal sent by `close` |
| `AcquisitionProvenance.FailuresAreTheAnswers` | crates/nmp-nip11/src/service.rs:672-716 | a fetch fails with its answer's own error, with the refusal of its body, or for a 304 over nothing |
| `AcquisitionAddressing.RegistrationLeads` | crates/nmp-nip11/src/service.rs:400-420 | where a registration leaves its caller, its permit and the tasks, in every case |
| `AcquisitionAddressing.CallersGetTheirRelay` | crates/nmp-nip11/src/service.rs:400-420 | in every run a caller that returns with a document returns with one of the relay it called for |
| `AcquisitionRuns.CopiesChangeOnlyByLanding` | crates/nmp-nip11/src/service.rs:889-1006 | only an effective landing or the closing of the table changes a cached copy |
| `AcquisitionRuns.PermitsAndCacheAreBounded` | crates/nmp-nip11/src/service.rs:400-528 | free permits plus those of admitted callers, installed, landing and closing flights are 8 at every moment; the cache is within capacity; a generation is at one relay |
| `AcquisitionWorkers.LiveWorkersAreBounded` | crates/nmp-nip11/src/service.rs:395-420 | the live workers are at most eight and those whose cancelled or closed flight they have not yet left |
| `AcquisitionWorkers.LiveIsWithinEightExactly` | crates/nmp-nip11/src/service.rs:395-420 | at most eight workers are live exactly while those without an installed flight are no more than the permits no installed flight holds |
| `AcquisitionOverlap.FetchesAreUnbounded` | crates/nmp-nip11/src/service.rs:827-860 | for every number a run of the service ends with that many fetches at once, all at different relays and with all eight permits free |
| `AcquisitionRuns.OnlyTheLeastRecentIdleCopyIsEvicted` | crates/nmp-nip11/src/service.rs:920-970 | a copy leaves an open table only for another relay's completion, when the table is full, it is idle and no idle copy is older |
| `AcquisitionRuns.FailedRefreshKeepsStaleCopy` | crates/nmp-nip11/src/service.rs:970-990 | a failed refresh that may serve stale keeps the payload, records the error and delivers that copy |
| `AcquisitionRuns.StaleUntilSuccess` | crates/nmp-nip11/src/service.rs:465-473 | after such a failure no `UseCache` registration is answered from the cache until a later success |
| `RelayListCoordinator.ParseRelayList` | crates/nmp-nip65/src/lib.rs:292-320 | the loop reads every `r` row into read and write routes as `RoutesOf` defines them |
| `RelayListCoordinator.Nip65Coordinator.RerootTo` | crates/nmp-nip65/src/lib.rs:373-388 | the new state, and whether a query of the new revision is to be opened |
| `RelayListCoordinator.Nip65Coordinator.ObserveCurrentDelta` | crates/nmp-nip65/src/lib.rs:402-449 | the new state, and exactly one update per changed author in order |
| `RelayListCoordinator.Nip65Coordinator.SettleSource` | crates/nmp-nip65/src/lib.rs:451-475 | only a settlement citing the current revision of a configured source counts; the last one reports the absent authors |
| `RelayListRuns.WinnersAreUnbeaten` | crates/nmp-nip65/src/lib.rs:402-449 | each author's winner is a contender that no contender beats |
| `RelayListRuns.NewestListWins` | crates/nmp-nip65/src/lib.rs:477-480 | no list of the author among the old winner and the batch is newer than the new winner, and none of the same moment has a smaller id |
| `RelayListRuns.RoutesAreExact` | crates/nmp-nip65/src/lib.rs:292-320 | a relay is written to exactly if an `r` row names it unmarked or with "write", and read from exactly if one does unmarked or with "read" |
| `RelayListRuns.RerootIsExact` | crates/nmp-nip65/src/lib.rs:373-388 | a change of authors keeps exactly the winners still wanted and forgets settlements and absences; the same authors change nothing |
| `RelayListRuns.WinnersIgnoreOrder` | crates/nmp-nip65/src/lib.rs:477-480 | order and repetition of observed events do not matter |
| `RelayListRuns.WinnersIgnoreBatching` | crates/nmp-nip65/src/lib.rs:390-449 | batching does not matter |
| `RelayListRuns.ExactDiffsTrackTheProjection` | crates/nmp-nip65/src/lib.rs:402-449 | fed an exact diff, the winners become the projection and each new row's routes are reported |
| `RelayListRuns.ProjectionHistories` | crates/nmp-nip65/src/lib.rs:402-449 | over any history of exact diffs the winners are the projection at every moment, and every row that appears or is replaced is reported with its routes |
| `RelayListRuns.SettledAuthorsArePartitioned` | crates/nmp-nip65/src/lib.rs:451-475 | once a nonempty source set has settled it stays settled, and every author is exactly one of winner-held and reported absent at this and every later moment until a reroot |
| `RelayListRuns.SettledSourcesAnswered` | crates/nmp-nip65/src/lib.rs:451-475 | a settled source answered the revision in force, with no change of authors since |
| `RelayListRuns.AbsenceIsEarned` | crates/nmp-nip65/src/lib.rs:371-475 | absence is reported only for a wanted author without winner, after every source has answered the current revision |
| `RelayListRuns.AbsenceIsNotRepeated` | crates/nmp-nip65/src/lib.rs:430-475 | absence is never reported twice without a presence or a reroot between |
| `RelayListRuns.LastWordIsTheWinner` | crates/nmp-nip65/src/lib.rs:430-447 | the last update about an author with a winner carries that winner's routes |
| `RelayListRuns.AbsenceWithoutASource` | crates/nmp-nip65/src/lib.rs:371-388 | with no source, removing a winner reports an absence no settlement could have earned |
| `RelayListRuns.AbsenceIsEarnedExactly` | crates/nmp-nip65/src/lib.rs:371-475 | over a source set, every absence of every run comes with or after a counted settlement exactly when the set is not empty |
| `Text.HexRoundTrip` | crates/nmp-grammar/src/tagging.rs:517-526 | hex printing and reading are inverse |
| `Text.CoordinateRoundTrip` | crates/nmp-nip22/src/root.rs:50-55 | a printed coordinate parses back, whatever colons its identifier holds |
| `Tagging.MakeRow` | crates/nmp-grammar/src/tagging.rs:610-620 | the row is the shortest beginning of the cells, two at least, that reads the same in every cell |
| `Tagging.CarriedPubkeys` | crates/nmp-grammar/src/tagging.rs:549-576 | the mentioned keys, once each, in order of first mention |
| `Tagging.PersonRows` | crates/nmp-grammar/src/tagging.rs:582-607 | one row for the author and one for each carried key, none twice |
| `Tagging.DistinctKeepsOrder` | crates/nmp-grammar/src/tagging.rs:549-576 | carried keys stand in the order of their first mention |
| `Tagging.AuthorComesFirst` | crates/nmp-grammar/src/tagging.rs:582-607 | the author comes first, then every carried key, none twice |
| `Tagging.IdentifierIsFirst` | crates/nmp-grammar/src/tagging.rs:777-797 | an addressable event's identifier is the value of its first `d` row |
| `ThreadPositions.RowNames` | crates/nmp-grammar/src/tagging.rs:528-547 | which event, author and relay an `e` row names, for any row |
| `ThreadPositions.NoReferenceIsARoot` | crates/nmp-grammar/src/tagging.rs:266-273 | an event without `e` rows is a root |
| `ThreadPositions.RootMarkerNamesTheRoot` | crates/nmp-grammar/src/tagging.rs:282-295 | the first row marked root names the root, the first marked reply the parent unless it names no event or the root |
| `ThreadPositions.ReplyMarkerAloneNamesTheRoot` | crates/nmp-grammar/src/tagging.rs:297-307 | a reply marker without a root marker names the root, and there is no parent |
| `ThreadPositions.PositionsDecideUnmarked` | crates/nmp-grammar/src/tagging.rs:309-320 | without markers the first `e` row names the root and the last the parent, a single row the root only |
| `ThreadPositions.ScopeNamesTheRoot` | crates/nmp-grammar/src/tagging.rs:221-254 | in a comment scope each uppercase letter's first row gives its cell of the root, and the first `e` row the parent unless it names the root's event |
| `NoteThreads.RepliesReadBack` | crates/nmp-grammar/src/tagging.rs:258-321 | in a reply chain of any length every reply reads back the root, and from the second on the note it answers, with authors and relay hints |
| `NoteThreads.RepliesNotifyEveryoneOnce` | crates/nmp-grammar/src/tagging.rs:549-607 | a reply names each author above it and each of the root's mentions exactly once, and nobody else |
| `NoteThreads.DepthOf` | crates/nmp-canary/src/thread.rs:126-150 | the guarded loop computes the walk to the root |
| `NoteThreads.DepthIsReplyCount` | crates/nmp-canary/src/thread.rs:103-150 | with all rows held and signed the walk finds depth n for n up to 64 and none beyond |
| `NoteThreads.DepthStopsAtGap` | crates/nmp-canary/src/thread.rs:126-150 | with a row missing on the way the walk finds none; with one not yet signed, the distance to it |
| `NoteThreads.DepthIsTrueExactly` | crates/nmp-canary/src/thread.rs:126-150 | the walk finds the true depth exactly when every row below the root is held and signed and the depth is at most 64 |
| `NoteThreads.MissingParentHasNoDepth` | crates/nmp-canary/src/thread.rs:119-150 | a held reply without its parent gets the promised depth 1 exactly when the parent is the root, and none otherwise |
| `RowTable.Table.Apply` | crates/nmp-canary/src/rows.rs:75-113 | the rows after a frame, every row listed once newest first, and the table marked whenever it changed |
| `RowTable.Table.Resort` | crates/nmp-canary/src/rows.rs:117-126 | every row once, newest first, ties by event id |
| `RowTable.OrderIsUnique` | crates/nmp-canary/src/rows.rs:117-126 | a table has one reading order |
| `RowTable.FirstIsNewer` | crates/nmp-canary/src/rows.rs:117-126 | of two listed rows the first is newer, or of the same moment and with the smaller id |
| `CommentThreads.DecodeSpelled` | crates/nmp-nip22/src/decode.rs:184-397 | what the strict decoder makes of rows that spell a reference, in all its cases |
| `CommentDecoding.DecodeIsExact` | crates/nmp-nip22/src/decode.rs:184-660 | over all rows: the decoder accepts exactly kind 1111 with uppercase rows that name one root and lowercase rows that name it again or a comment, and returns these |
| `CommentDecoding.SecondRowsAreRefused` | crates/nmp-nip22/src/decode.rs:184-260 | a second row of any deciding letter is refused, whatever it says |
| `CommentDecoding.ReadersAgree` | crates/nmp-grammar/src/tagging.rs:221-254 | wherever the strict decoder accepts, the lenient reader names the same root and the same parent comment, but where an address is pinned to that comment |
| `CommentThreads.CommentOnComment` | crates/nmp-nip22/src/decode.rs:494-660 | answering a decodable comment decodes to the identical root with that comment as parent, but for a comment that roots itself under another kind |
| `CommentThreads.CommentOnRootReadsBack` | crates/nmp-nip22/src/root.rs:110-161 | a comment on a typed root decodes to that root at top level exactly when its external id is readable again |
| `CommentThreads.CommentOnPlainEvent` | crates/nmp-grammar/src/tagging.rs:625-763 | outside NIP-22 threads, exactly when a comment on an event decodes, and to which root |
| `CommentThreads.CommentOnNoteNeverDecodes` | crates/nmp-grammar/src/tagging.rs:643-662 | a comment on a kind:1 event is always refused, with the refusal named |
| `CommentTargets.CommentDecodesExactly` | crates/nmp-grammar/src/tagging.rs:625-763 | a comment on any event but a text note decodes exactly when the root the event names reads and the event is that root or a comment |
| `CommentTargets.ScopedEventsFail` | crates/nmp-nip22/src/decode.rs:494-660 | an event in a comment scope that is neither a comment nor addressable nor the scope's root can never be commented on |
| `CommentTargets.VoiceRepliesFail` | crates/nmp-nip22/src/intent.rs:11-15 | such an event, of kind 1244 |
| `CommentThreads.DemandSelectsFiled` | crates/nmp-nip22/src/demand.rs:19-64 | the thread demand selects a decodable comment exactly when its root row spells the root canonically |
| `CommentThreads.AnswersAreFiled` | crates/nmp-grammar/src/tagging.rs:698-763 | an answer is filed under its root unless it copies an address cell that was not |
| `CommentThreads.ThreadsKeepTheirRoot` | crates/nmp-nip22/src/decode.rs:637-660 | below any decodable first comment the root is that comment's, the parent the previous comment, and the demand selects it, for an address root if it selects the first |
| `CommentThreads.RootCommentsAreFiled` | crates/nmp-nip22/src/root.rs:110-161 | a comment composed on a readable root is filed under that root |
| `CommentThreads.ThreadsMatchTheirDemand` | crates/nmp-nip22/src/demand.rs:19-64 | in a thread started from a readable root, none of whose comments is that root under another kind, every comment at every depth decodes to that root with the previous comment as parent and is selected by the root's demand |
| `ChaCha20.Mix` | crates/nmp-local-signer/src/local_crypto.rs:586-595 | the in-place quarter round changes exactly its four words, as the quarter round of RFC 8439 does |
| `ChaCha20.QuarterRoundVector` | crates/nmp-local-signer/src/local_crypto.rs:586-595 | the quarter round maps the words of section 2.1.1 of RFC 8439 as shown there |
| `ChaCha20.ColumnsAreMixed` | crates/nmp-local-signer/src/local_crypto.rs:558-562 | a column round mixes each column of the state with the quarter round |
| `ChaCha20.DiagonalsAreMixed` | crates/nmp-local-signer/src/local_crypto.rs:563-566 | a diagonal round mixes each diagonal |
| `ChaCha20.InitialLayout` | crates/nmp-local-signer/src/local_crypto.rs:543-556 | the state is the words of "expand 32-byte k", the key, the counter and the nonce |
| `ChaCha20.BlockInto` | crates/nmp-local-signer/src/local_crypto.rs:554-580 | the key stream written is the block function of section 2.3 of RFC 8439 |
| `ChaCha20.ChaChaXor` | crates/nmp-local-signer/src/local_crypto.rs:540-584 | the buffer ends masked octet by octet with the key stream at each octet's own position |
| `ChaCha20.MaskingIsAnInvolution` | crates/nmp-local-signer/src/local_crypto.rs:540-584 | masking twice gives the text back |
| `ChaCha20.WordRoundTrip` | crates/nmp-local-signer/src/local_crypto.rs:546-577 | little-endian octets of a word read back as the word |
| `Hkdf.HmacSha256` | crates/nmp-local-signer/src/local_crypto.rs:438-455 | the two pads built in place give HMAC as RFC 2104 defines it over the concatenated parts |
| `Hkdf.DeriveMessageKeys` | crates/nmp-local-signer/src/local_crypto.rs:407-436 | the loop yields the 76 octets of HKDF-Expand of section 2.3 of RFC 5869 |
| `PaddedLength.PaddingIsMonotone` | crates/nmp-local-signer/src/local_crypto.rs:523-534 | longer texts never get shorter padding |
| `PaddedLength.PaddingIsIdempotent` | crates/nmp-local-signer/src/local_crypto.rs:523-534 | a padded length pads to itself |
| `PaddedLength.PaddingIsTight` | crates/nmp-local-signer/src/local_crypto.rs:523-534 | a padded length holds the text, is a multiple of 32 and wastes less than 32 octets or a quarter of the text |
| `PaddedLength.SmallClasses` | crates/nmp-local-signer/src/local_crypto.rs:523-534 | up to 256 octets the padded length is the least multiple of 32 that holds the text, and at least 32 |
| `PaddedLength.LargeClasses` | crates/nmp-local-signer/src/local_crypto.rs:523-534 | between 2^(k-1) and 2^k, for k from 9 on, it is the least multiple of 2^(k-3) that holds the text |
| `PaddedLength.WithinItsOctave` | crates/nmp-local-signer/src/local_crypto.rs:523-534 | a padded length is at most the next power of two |
| `Keys.ConversationKeysAgree` | crates/nmp-local-signer/src/local_crypto.rs:384-405 | both ends derive the same key, whatever the parity of their points: the HMAC of the shared x under the salt "nip44-v2" |
| `Schnorr.SignaturesVerify` | crates/nmp-local-signer/src/local_crypto.rs:222-275 | every signature issued passes the Verification algorithm of BIP-340 against the x-only key, through both conditional negations |
| `Schnorr.NonceIsDefault` | crates/nmp-local-signer/src/local_crypto.rs:237-256 | the nonce is that of the Default Signing algorithm of BIP-340 |
| `Nip44.UnpaddingIsExact` | crates/nmp-local-signer/src/local_crypto.rs:351-365 | the reader accepts exactly the padded forms of a text |
| `Nip44.KeysAreSplit` | crates/nmp-local-signer/src/local_crypto.rs:295-318 | the 76 derived octets are the cipher's key, its nonce and the key of the authentication code, in that order |
| `Nip44.EncryptionRefusals` | crates/nmp-local-signer/src/local_crypto.rs:287-300 | a text is refused exactly for a bad key, for being empty or for being longer than 65408 octets |
| `Nip44.DecryptionRefusals` | crates/nmp-local-signer/src/local_crypto.rs:329-349 | a ciphertext is refused first for its form and version, then for its keys, then exactly for a wrong authentication code |
| `Nip44.Encrypt` | crates/nmp-local-signer/src/local_crypto.rs:287-322 | the buffer steps produce the specified payload, or the specified refusal |
| `Nip44.Decrypt` | crates/nmp-local-signer/src/local_crypto.rs:324-373 | the buffer steps produce the specified text, the refusal in the code's own order, or the stop on a counter overflow |
| `Nip44.MessagesRoundTrip` | crates/nmp-local-signer/src/local_crypto.rs:287-373 | decryption inverts encryption for every text of 1 to 65408 octets, every nonce and every pair of keys |
| `Nip44.DecryptionIsExact` | crates/nmp-local-signer/src/local_crypto.rs:324-373 | a ciphertext decrypts to a text if and only if it was sealed with the shared key around that text, which is UTF-8 |
| `GroupRecords.Accumulator.Apply` | crates/nmp-nip29/src/record_observation.rs:374-396 | the rows after a batch of deltas, each under its own id |
| `RowDeltas.LastDeltaDecides` | crates/nmp-nip29/src/record_observation.rs:374-396 | a row is held exactly when the last delta about it did not remove it, with that delta's event |
| `RowDeltas.LastSourcesDecide` | crates/nmp-nip29/src/record_observation.rs:374-396 | a held row has the sources last stated for it |
| `GroupRecords.NewestIsUnique` | crates/nmp-nip29/src/record_observation.rs:651-662 | a host's newest record is determined by the rows, not by the order of folding |
| `GroupRecords.FoldRows` | crates/nmp-nip29/src/record_observation.rs:451-503 | folding in any order yields exactly the seeded or served groups, the serving hosts, and each host's newest record of each sort |
| `GroupSnapshots.ListedRecordAt` | crates/nmp-nip29/src/records.rs:193-223 | exactly the subjects of the record's rows, once each, in the order of their first mention, attributed to its host |
| `GroupSnapshots.CountsTellDisagreement` | crates/nmp-nip29/src/record_observation.rs:595-601 | counting hosts finds a shortfall exactly when two published lists differ |
| `GroupSnapshots.Union` | crates/nmp-nip29/src/record_observation.rs:580-612 | every named subject with exactly the hosts naming it, and whether lists differ |
| `GroupSnapshots.WinningMetadata` | crates/nmp-nip29/src/record_observation.rs:525-535 | the newest record, held by the last of the hosts that have it |
| `GroupSnapshots.Snapshot` | crates/nmp-nip29/src/record_observation.rs:505-572 | the per-host records, the aggregate and its three disagreement marks against their definitions |
| `GroupSnapshots.Project` | crates/nmp-nip29/src/record_observation.rs:451-574 | one snapshot for each group of the fold |
| `GroupSnapshots.AggregateIsNewest` | crates/nmp-nip29/src/record_observation.rs:451-574 | the aggregate metadata is one whole record a host served, as new as any attributed row of the group |
| `GroupSnapshots.AggregateExists` | crates/nmp-nip29/src/record_observation.rs:451-574 | it exists exactly when some host served metadata for the group |
| `GroupSnapshots.AttributionIsExact` | crates/nmp-nip29/src/record_observation.rs:580-612 | a subject is attributed to exactly the hosts whose newest list names it |
| `GroupSnapshots.DisagreementIsExact` | crates/nmp-nip29/src/record_observation.rs:580-612 | lists disagree exactly when two hosts' newest lists name different subjects |
| `GroupProjection.GroupsAreThoseServed` | crates/nmp-nip29/src/record_observation.rs:451-503 | a group has a snapshot exactly if it was asked for or a host served a row of kind 39000, 39001 or 39002 for it |
| `GroupProjection.ListsAreNewest` | crates/nmp-nip29/src/record_observation.rs:451-612 | the administrators are those of each host's newest kind:39001 row and the members those of its newest kind:39002 row |
| `GroupProjection.MetadataIsNewest` | crates/nmp-nip29/src/record_observation.rs:520-535 | the metadata is a kind:39000 row as new as any served for the group, ascribed to the last host that served it, and none exactly if none was served |
| `GroupProjection.MarksAreExact` | crates/nmp-nip29/src/record_observation.rs:536-612 | each disagreement mark is set exactly if two hosts' newest rows of that kind differ |
| `GroupPredicates.LoweringKeepsMeaning` | crates/nmp-nip29/src/predicate.rs:338-352 | the lowered binding denotes the predicate's own set algebra over records the host served |
| `GroupPredicates.CallersAreVerbatim` | crates/nmp-nip29/src/predicate.rs:338-352 | wherever the predicate holds a caller's binding or selection the lowered binding holds the same one, the selection pinned to the host |
| `GroupPredicates.AlgebraMeans` | crates/nmp-resolver/src/eval.rs:181-225 | membership in a union, an intersection and a difference |
| `GroupPredicates.MatchingIsExact` | crates/nmp-grammar/src/binding.rs:66-88 | which rows a filter matches, field by field |
| `GroupPredicates.BranchIsExact` | crates/nmp-nip29/src/records.rs:248-270 | a branch selects exactly the served records of the selected kinds for the named groups |
| `GroupPredicates.HostsAreIsolated` | crates/nmp-nip29/src/discovery.rs:86-173 | rows served only by other hosts cannot change what a predicate resolves to |
| `GroupPredicates.IdsHaveEvidence` | crates/nmp-nip29/src/predicate.rs:235-371 | every resolved id is named by a group record its host served or by a caller's binding |
| `GroupPredicates.GroupsWhoseRecordMatches` | crates/nmp-nip29/src/predicate.rs:235-252 | a selection is accepted exactly when it names group-record kinds only; none named and the least offender are the two refusals, each exactly in its case |
| `Content.BoundedInput` | crates/nmp-content/src/parse.rs:35-50 | the longest prefix within 256 KiB that ends at a character boundary, with a diagnostic exactly when something was cut |
| `ContentMeaning.BoundariesAreCharacters` | crates/nmp-content/src/parse.rs:35-50 | in UTF-8 text the cut is allowed exactly where whole characters end |
| `Content.OrderIsUnique` | crates/nmp-content/src/parse.rs:448-449 | the sort key tells all matches apart, so sorting has one result |
| `Content.AcceptedAreDisjoint` | crates/nmp-content/src/parse.rs:451-459 | accepted tokens are matches and never overlap |
| `Content.RejectedAreCovered` | crates/nmp-content/src/parse.rs:451-459 | a rejected match starts inside an accepted token that precedes it in order |
| `ContentMeaning.RejectedLose` | crates/nmp-content/src/parse.rs:448-459 | a match loses only to one that starts before it and reaches into it, or starts with it and is of a preferred kind or no shorter |
| `Content.TilingIsLossless` | crates/nmp-content/src/parse.rs:442-509 | the originals of tiling nodes concatenate to the bytes of the range |
| `ContentParser.TokenizeInline` | crates/nmp-content/src/parse.rs:442-509 | the nodes and diagnostics of the greedy choice, for any in-bounds matches |
| `ContentMeaning.TokensHaveNodes` | crates/nmp-content/src/parse.rs:461-500 | every accepted token becomes a node of its own kind over its own bytes, a reference that does not decode plain text |
| `ContentMeaning.NodesHaveTokens` | crates/nmp-content/src/parse.rs:461-500 | every node that is not plain text comes from such a token |
| `ContentMeaning.DiagnosticsAreExact` | crates/nmp-content/src/parse.rs:461-500 | a diagnostic is raised for exactly the accepted references that do not decode |
| `ContentParser.InlinesTile` | crates/nmp-content/src/parse.rs:442-573 | those nodes tile the paragraph |
| `ContentParser.SplitTiles` | crates/nmp-content/src/parse.rs:576-619 | splitting at line breaks keeps the tiling |
| `ContentParser.SplitIsUnbroken` | crates/nmp-content/src/parse.rs:576-619 | no text node keeps a line break |
| `ContentMeaning.SplitKeepsOthers` | crates/nmp-content/src/parse.rs:576-619 | splitting at line breaks keeps every node that is not plain text and adds none but breaks |
| `ContentParser.FindParagraphEnd` | crates/nmp-content/src/parse.rs:78-88 | the first blank line from the start, or the end |
| `ContentParser.ParsePlain` | crates/nmp-content/src/parse.rs:52-76 | paragraphs in order, only breaks around them, each tiled by its nodes |
| `ContentMeaning.ParagraphsAreSeparate` | crates/nmp-content/src/parse.rs:52-88 | paragraphs hold no blank line, start with something else than a break, and have at least a blank line between them |
| `ContentParser.ParseContent` | crates/nmp-content/src/parse.rs:19-33 | the document tiles the longest kept prefix, every block is its paragraph tokenized, and the diagnostics are the truncation and then the malformed references in paragraph order |
| `StableIds.OutsideAreBreaks` | crates/nmp-content/src/parse.rs:52-76 | every byte outside the paragraphs is a line break |
| `StableIds.IdsAreInjective` | crates/nmp-content/src/document.rs:200-202 | within the bound an id determines its range and discriminator |
| `StableIds.DocumentIdsAreDistinct` | crates/nmp-content/src/document.rs:200-202 | no two blocks or references of a document share an id |
| `AtomIdentity.FoldContext` | crates/nmp-grammar/src/concrete.rs:270-317 | the appended octets are the specified preimages |
| `AtomIdentity.HashAtom` | crates/nmp-grammar/src/concrete.rs:237-255 | the digest is that of the specified last preimage |
| `AtomIdentity.EqualHashesMeanEqualAtoms` | crates/nmp-grammar/src/concrete.rs:237-333 | atoms with one digest agree in filter encoding, identity, framed routing and framed evidence, or two different preimages of theirs collide; where every URL is shorter than 2^32 octets such atoms are equal |
| `AtomIdentity.SameFramingSameHash` | crates/nmp-grammar/src/concrete.rs:237-333 | atoms that agree in these have one digest, whatever the hash function |
| `AtomIdentity.FramingIsFaithfulExactly` | crates/nmp-grammar/src/concrete.rs:293-297 | lists of strings up to a length are told apart by their framing exactly when that length is below 2^32 |
| `WebSocket.RawSession.TakeFrame` | crates/nmp-relay-lab/src/fixtures.rs:305-333 | a complete frame is taken off the buffer, an incomplete one leaves it alone |
| `WebSocket.RawSession.ReadMessages` | crates/nmp-relay-lab/src/fixtures.rs:283-303 | what is read and what stays buffered depend on the octets alone, not on how they arrived |
| `WebSocket.TakeAllInParts` | crates/nmp-relay-lab/src/fixtures.rs:283-333 | taking frames as octets arrive equals taking them at the end |
| `WebSocket.WireReadsBack` | crates/nmp-canary/src/gated_relay.rs:306-321 | every frame written is read back in order and an unfinished last frame stays buffered |
| `WebSocket.LengthsAreMinimal` | crates/nmp-canary/src/gated_relay.rs:306-321 | the length field takes as few octets as section 5.2 of RFC 6455 allows |
| `WebSocketServer.SentReadsBack` | crates/nmp-relay-lab/src/fixtures.rs:263-280 | the relay recovers a sent text exactly when it is shorter than 65536 octets, and what it reads otherwise |
| `WebSocketServer.SessionReadsBack` | crates/nmp-canary/src/gated_relay.rs:241-289 | the texts read in a session are those sent, in order, exactly when every text is shorter than 65536 octets |
| `WebSocketServer.FirstTextOrClose` | crates/nmp-canary/src/gated_relay.rs:239-289 | the first text or close decides; what comes before is passed over, and each ping among it answered |
| `WebSocketServer.Socket.ReadExactOrEof` | crates/nmp-canary/src/gated_relay.rs:291-300 | exactly the asked octets, or end of stream, however reads are cut |
| `WebSocketServer.Socket.ReadText` | crates/nmp-canary/src/gated_relay.rs:241-289 | the next text, with pings answered and other frames passed over |
| `WebSocketServer.Socket.WriteFrame` | crates/nmp-canary/src/gated_relay.rs:306-321 | the octets written are the frame of section 5.2 of RFC 6455 |
| `ListEdits.ApplyEdits` | crates/nmp-nip29/src/group_list_writes.rs:326-378 | the loop of edits equals applying them one by one |
| `ListEdits.OneTarget` | crates/nmp-nip29/src/group_list_writes.rs:380-397 | a row belongs to at most one target |
| `ListEdits.RowsOfTargets` | crates/nmp-nip29/src/group_list_writes.rs:380-397 | which rows belong to a key, a group and a relay, for any row |
| `ListEdits.AdditionsAreSpelled` | crates/nmp-nip29/src/group_list_writes.rs:326-378 | an addition leaves a list that has the target alone and otherwise appends the target's row |
| `ListEdits.RemovalsAreComplete` | crates/nmp-nip29/src/group_list_writes.rs:326-378 | a removal leaves no row of the target |
| `ListEdits.CountsFollowEdits` | crates/nmp-nip29/src/group_list_writes.rs:326-378 | the number of rows of a target follows from its number in the source and the edits about it |
| `ListEdits.LastEditDecides` | crates/nmp-nip02/src/writes.rs:123-155 | whatever the source, a touched target ends present exactly when its last edit adds it |
| `ListEdits.NoSecondRow` | crates/nmp-nip02/src/writes.rs:123-155 | no target gains a second row |
| `ListEdits.OthersSurvive` | crates/nmp-nip29/src/group_list_writes.rs:326-378 | rows no edit is about survive cell for cell and in order |
| `ListEdits.FollowRoundTrip` | crates/nmp-nip02/src/writes.rs:93-119 | an operation decodes to an edit exactly when it is that edit's encoding |
| `ListEdits.FollowLayout` | crates/nmp-nip02/src/writes.rs:93-102 | the layout of an operation: version 1, the change, the key |
| `ListEdits.ApplyFollowOperations` | crates/nmp-nip02/src/writes.rs:123-155 | all operations apply, or the error is that of the first undecodable one |

## Left out

- HTTP, DNS, timeouts and header parsing of the NIP-11 service: an answer is any value, the clock any number.
- Generations and access stamps of the NIP-11 table do not wrap at 64 bits; the coordinator's revision saturates as in the code.
- A caller that loses the registration race gives its permit back in the registration step; the code does so just after the lock.
- A flight taken by `close` gives its permit back in the step that sends its refusal.
- The parsed document and its revision hash are functions of the raw JSON and are not carried separately.
- Event ids, keys and relays of the coordinator and of the group records stand for their ranks in their own order.
- The depth walk of `NoteThreads` runs over a map of held rows with a signed mark; `RowTable` models the table's order without it.
- Markdown, regular expressions and NIP-19 decoding: matches are arbitrary in-bounds ranges and decoding an arbitrary predicate.
- Inline styles, the placement of references, the case folding of hashtags and the trimming of punctuation off URLs in the content parser.
- ContentParser.ParsePlain: returns the malformed-reference diagnostics per paragraph; `ParseContent` joins them.
- GroupSnapshots.Snapshot: leaves out availability, which reads acquisition evidence and not the rows.
- The local store's rule for rows this node wrote itself: in `GroupPredicates` a strict read sees only rows a pinned relay served.
- SHA-256, BLAKE3, base64, UTF-8 and curve arithmetic are parameters; wiping of secrets has no functional contract.
- Schnorr.Sign: keeps s as a number instead of 32 octets.
- WebSocket.RawSession.TakeFrame: adds offset and declared length without the machine's overflow near 2^64, where the program stops.
- serde encodings of group-list operations, and the engine, store, router and transport, are not part of this model.
- NIP-29 writes and their context checks, bookmarks, and the composers of other kinds than notes, replies and comments.
