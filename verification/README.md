# Verification model of the tag2now backend

The backend finds finished TEKKEN TAG 2 matches by comparing players' cumulative saves, resolves each into one side of
a match row with any number of event consumers, keeps a live chat stream, infers who is searching for a match from
room snapshots, speaks RPCN's framed packet protocol, and runs a reservation board with idempotent writes. This
project models those parts in Dafny and proves what each is for, over every run and every input.

`dafny verify dfyconfig.toml` checks all of it.

## How it is laid out

| files | what they model |
|---|---|
| `Common`, `PlayDay` | shared types; the 06:00 KST day boundary, as three modules of the source compute it |
| `RecordsModel`, `Capture` | two saves becoming a match; capturing saves into states and queued events |
| `MatchTable`, `Consumers`, `Retries`, `MatchTallies`, `Paging` | the match table and what keeps it right; consumers as a state machine of transactions; back-off and termination; the player tallies; reading by pages |
| `EndToEnd` | captures and consumers interleaved: where each result a save brought ends up |
| `EventQueue` | one consumer's code over tables it updates in place, and that a pass of it is a run of `Consumers` |
| `ChatStore`, `ChatBus`, `ChatStream` | the bounded message store; one bounded queue a stream; a reader against every interleaving |
| `Tracker` | the matchmaking tracker against a specification over the whole snapshot history |
| `RpcnFraming` | packets over a socket that answers in arbitrary chunks |
| `Reservations`, `ReservationRuns` | reservations and seats; runs in which other operations come between a listing's statements |
| `Idempotency` | transactions that block, commit and abort around one idempotency key |
| `Boards` | competition ranking and closing the gaps that excluded accounts leave |

Concurrent parts are state machines: a state, the actions each transaction may take, when each is enabled, and an
invariant kept by every action. "Reachable" means at the end of some run from the empty database. Objects that the
source updates in place are classes whose methods are proved against functions on their state, and those functions are
what the lemmas are about.

Instants and durations are whole microseconds. Clocks, the save server's answers, the bytes a socket yields and where
an attempt fails are parameters. Transactions run at READ COMMITTED: a statement sees what is committed when it runs.

## Where a property holds only in part

- A listed player can be shown as a phantom too if two listed rooms share an id, because the tracker keys rooms by id.
  `ListedPlayerCanBeAPhantom` gives the exact condition, `SharedIdShowsAPlayerTwice` an input.
- A call whose write answers null is written again by its retry, because a null answer and no answer are stored alike.
  In every run a key has one write and one non-null answer exactly if no committed write under it answered null
  (`OneWriteOneAnswer`); `RetryWritesAgainIffNull` shows what a retry then does.
- An event fails at most five times, but it can be attempted more often: an attempt whose transaction crashes leaves no
  trace. `AttemptsAreAccounted` says where every attempt went, `AttemptedFiveTimesButForCrashes` bounds them by five and
  the crashes, and `CrashesAddAttempts` gives a run for every number of them.
- A chat reader whose snapshot starts after it subscribed shows messages the listing would not. `LateReadShowsMore`
  shows it for every such pair of moments; for every other `DrainedReaderShowsTheStore` holds. It takes a snapshot
  read more than a day late.
- A listing that reads after a dawn its sweep's clock had not reached can miss a live reservation.
  `DawnBetweenHidesARow` shows it for every such pair of moments; for every other `ListingIsComplete` holds.
- The description of `GET /records/weekly-top` (`src/records/router.py:31-32`) says only matches both players' saves
  confirmed are counted. The query counts every match the player's own save showed against a named opponent, as
  `docs/spec/11-records.md` says. The model follows the query.

## Model

| member | source | states |
|---|---|---|
| `PlayDay.BoundariesAgree` | src/reservation/domain.py:80-90 | the reservation window's end is the chat day's start plus a day, the statistics day starts at the chat day's start, and these are the last 06:00 KST at or before now and the first one after |
| `PlayDay.DayStartByDay` | src/history/adapters/postgresql.py:44-56 | chat's day and the booking window are the statistics day's start and the next one's, for every instant |
| `PlayDay.DawnAt` | src/history/adapters/postgresql.py:54-56 | a statistics day starts at a 06:00 KST and belongs to itself |
| `PlayDay.DawnInUtc` | src/reservation/domain.py:68-73 | the boundary is 21:00 UTC on every day |
| `PlayDay.WindowEndMonotone` | src/reservation/domain.py:80-90 | the booking window never moves back |
| `PlayDay.NextOccurrenceExists` | src/reservation/domain.py:102-104 | today's occurrence of a time of day, or tomorrow's once it has passed, is the first from now on and less than a day off |
| `PlayDay.StartAtFromIsNextOccurrence` | src/reservation/domain.py:93-110 | a time of day means its first occurrence from now, accepted exactly from ten minutes from now up to the next dawn, with the right one of the two refusals |
| `PlayDay.HistoryReachesBackADay` | src/chat/domain.py:59-62 | a chat snapshot begins at the dawn before the last one, so at least one day back and less than two |
| `RecordsModel.WinnerKeepsBothOutcomes` | src/records/domain.py:56-61 | the stored winning side gives each side its own outcome back, the two always differ, and no other winner does so |
| `RecordsModel.PlayedIsRaised` | src/records/domain.py:18-25 | the characters played are exactly those whose count of the outcome rose, in either order |
| `RecordsModel.CompareReadsTheChange` | src/records/domain.py:28-45 | a match is found exactly when one win or one loss was added, any other change is a jump; which characters played, in which order, and the rank each went in at |
| `Capture.RecordsService.LatestDataId` | src/records/adapters/postgresql.py:116-117 | the highest stored id, or zero with no state |
| `Capture.RecordsService.SaveState` | src/records/adapters/postgresql.py:125-140 | replaces the player's state and raises its merged count only for a jump over an existing state |
| `Capture.RecordsService.AddEvent` | src/records/adapters/postgresql.py:142-155 | queues the match unless that player's save already has an event |
| `Capture.RecordsService.CompareSave` | src/records/service.py:65-76 | first save kept as the baseline, older saves skipped, otherwise state and event written together |
| `Capture.RecordsService.Capture` | src/records/service.py:55-63 | reads a little behind the newest compared id and compares every answer in order, a bad one stopping no other |
| `Capture.LedgerFollowsKeptSaves` | src/records/service.py:65-76 | after any answers in any order, with repeats and failures, the state is the newest kept save and the queued events are exactly the matches between consecutive kept saves, none swallowed by the unique key |
| `Capture.TallyIsConserved` | src/records/service.py:65-76 | a player's stored wins and losses are the baseline's plus one per queued win or loss plus what the merged jumps add up to, and the merged count is the number of jumps |
| `Capture.EventsComeFromSaves` | src/records/adapters/postgresql.py:142-155 | every queued event carries its save's player, id and time, is due at the comparison's clock with no attempt, and no save is queued twice |
| `Capture.ComparedTouchesOne` | src/records/service.py:65-76 | comparing one player's save changes no other player's state or count and queues at most that player's event |
| `Capture.RereadChangesNothing` | src/records/service.py:71-72 | saves at or below the compared id change nothing, so the overlap costs nothing |
| `Capture.NewestOnlyRises` | src/records/adapters/postgresql.py:116-117 | the newest compared id never falls and covers every save just compared |
| `Capture.OverlapIsRead` | src/records/service.py:30-59 | a save that became visible late, within sixteen ids of the newest compared, is read by the next capture |
| `Capture.CaptureAdvances` | src/records/service.py:30-63 | each capture reaches the newest save or leaves at least 184 fewer unread |
| `Capture.BacklogDrains` | src/records/service.py:30-63 | N waiting saves are drained by ceil(N/184) captures |
| `MatchTable.WriteKeepsTable` | src/records/adapters/postgresql.py:194-232 | a fill of the nearest candidate, or a new row when there is none, keeps rows in agreement with events, each event held once, and no join missed |
| `MatchTable.WrittenRowOk` | src/records/adapters/postgresql.py:218-232 | the row a write leaves agrees with its room, players, winner and events |
| `MatchTable.WriteMissesNoJoin` | src/records/adapters/postgresql.py:194-216 | because a row is added only when no row waits for it, no two half-seen rows of one match arise |
| `MatchTable.OtherRoomFrame` | src/records/adapters/postgresql.py:191-216 | a write into another room changes nothing this room's query sees or picks |
| `MatchTable.HeldExactlyWhenDone` | src/records/adapters/postgresql.py:171-174 | in any table kept so, a done event is on exactly one side of one match and any other on none |
| `MatchTable.SeenSidesAgree` | src/records/domain.py:48-61 | two seen sides are the room's two members' different events, one won and one lost, saved within 60 s |
| `MatchTable.RankRoomCovers` | src/history/adapters/postgresql.py:109-124 | a found room has the player, was made by the moment and seen no earlier than 90 s before it, and no other such room is newer; with none, no room of the player is such |
| `MatchTable.CandidateWaits` | src/records/adapters/postgresql.py:203-208 | a row can take an event exactly if it has its room and winner, misses its side and was played within 60 s |
| `MatchTable.PickIsNearest` | src/records/adapters/postgresql.py:198-211 | what the query picks is no further from the save than any row that waits |
| `Consumers.StepKeepsInv` | src/records/service.py:80-112 | every step of every consumer, and everything outside them, keeps the whole invariant |
| `Consumers.CommitDone` | src/records/service.py:90-112 | when one transaction commits, what every other transaction has read, locked or written is still right |
| `Consumers.CommitFailed` | src/records/service.py:96-99 | committing a recorded retry disturbs neither the table nor any other transaction |
| `Consumers.OnlyLocksWait` | src/records/adapters/postgresql.py:159-192 | in every reachable state a consumer waits for nothing but another's lock on its event's row or its room, may fail or crash at any step, and events and rooms may appear at any moment |
| `Consumers.NoJoinIsMissed` | src/records/adapters/postgresql.py:191-232 | in every reachable state two rows of one room and winner that miss opposite sides are more than 60 s apart |
| `Consumers.ResolvedExactlyOnce` | src/records/service.py:80-99 | in every reachable state an event is on one side of one match if done and on none otherwise, for any number of consumers, failures and crashes |
| `Consumers.RowsAgreeWithEvents` | src/records/adapters/postgresql.py:194-232 | in every reachable state a row's players are its room's or the one seen, each seen side's event is done, its player's own, says what the winner implies, was saved within 60 s, and one of them dates the match; two seen sides have opposite outcomes within 60 s |
| `Consumers.CommittedWriteIsStillRight` | src/records/adapters/postgresql.py:191-216 | what was chosen under the room lock is still the nearest candidate, or still without one, at the commit |
| `Consumers.FillIsNearest` | src/records/adapters/postgresql.py:194-216 | in every reachable state, if any row waits for a committing event then it fills one, and no waiting row was played nearer to its save |
| `Consumers.RowsOnlyGainEvents` | src/records/adapters/postgresql.py:215-232 | a row stays, its players, time, room and winner never change, and a filled side is never overwritten |
| `Retries.CommitSpendsCredit` | src/records/service.py:80-99 | every committed attempt lowers the attempts left over pending events, and no other step but queueing changes events |
| `Retries.DrainEnds` | src/records/service.py:80-88 | with nothing new queued, any interleaving commits at most as many attempts as there is credit |
| `Retries.DueIsClaimable` | src/records/adapters/postgresql.py:159-169 | while an unlocked event is due, an idle consumer can claim the oldest |
| `Retries.FailuresAreSpaced` | src/records/adapters/postgresql.py:176-187 | the n-th failure of an event and the next are at least 30 s times n apart, over every run |
| `Retries.BuriedAfterFiveMinutes` | src/records/adapters/postgresql.py:30-31 | an event fails at most five times, is dead exactly after five failures, and then its last is at least 300 s after its first; attempts that crash are no failures |
| `Retries.AttemptsAreAccounted` | src/records/service.py:80-99 | in every run the attempts begun at an event are its failures, its crashes, one if it is done and one if it is under way |
| `Retries.AttemptedFiveTimesButForCrashes` | src/records/adapters/postgresql.py:159-187 | in every run an event is attempted at most five times more than its attempts crashed |
| `Retries.CrashesAddAttempts` | src/records/adapters/postgresql.py:159-169 | for every number there is a run whose crashes make that many attempts at one event |
| `MatchTallies.TalliesCountResolvedEvents` | src/records/adapters/postgresql.py:261-284 | in every reachable state a player's counted wins are that player's done win events resolved into a room in the period, and losses likewise |
| `MatchTallies.ConfirmedTalliesAreReciprocal` | src/records/adapters/postgresql.py:286-311 | over matches both saves showed, A's wins against B are B's losses against A |
| `MatchTallies.TalliesAreReciprocal` | src/records/adapters/postgresql.py:86-106 | the published counts of the two differ by exactly the matches only one save showed |
| `MatchTallies.OpponentsAddUp` | src/records/adapters/postgresql.py:286-311 | over all opponents the counts against each add up to what the weekly top counts |
| `EndToEnd.EveryResultIsAccountedFor` | src/records/service.py:55-112 | for every interleaving of captures and consumers and every period, a player's saved wins are the first save's plus those the weekly top counts, those resolved earlier or without a room, those pending, those dead and the merged jumps; losses likewise |
| `EndToEnd.ResultsStandSomewhere` | src/records/adapters/postgresql.py:261-284 | in every reachable state a player's events of one outcome are exactly those counted, resolved outside the period or a room, pending and dead |
| `EndToEnd.RunFollows` | src/records/adapters/postgresql.py:142-187 | every interleaved run is a run of captures and a run of consumers over the same events, each queued match being one event |
| `EndToEnd.StepKeepsResults` | src/records/adapters/postgresql.py:171-187 | no consumer step changes whose event it is, its outcome, characters, ranks or time |
| `Paging.PageFacts` | src/records/service.py:116-124 | a page is newest first, passes the filter, is complete down to where the next starts, and is full if there is a next, which starts below its last |
| `Paging.PagesAreComplete` | src/records/service.py:116-124 | following the pages reads every match of the first table that passes the filter exactly once, newest first, whatever is recorded meanwhile |
| `Paging.PagesShowMatches` | src/records/adapters/postgresql.py:236-259 | every match read was in the table of its own request and passes the filter, at most the limit a page |
| `Paging.PagesEnd` | src/records/service.py:116-124 | following the pages ends, from the top within one page more than the highest id of the first table, and from a given id within as many pages as that id |
| `Paging.RecordingGrows` | src/records/adapters/postgresql.py:194-232 | what consumers do between two requests only adds rows and events, as the paging result assumes |
| `EventQueue.RecordsTables.ClaimEvent` | src/records/adapters/postgresql.py:159-169 | the oldest due pending event, or none exactly when none is due |
| `EventQueue.RecordsTables.FindRankRoom` | src/history/adapters/postgresql.py:109-124 | the newest room that has the player and covers the moment with 90 s of slack, or none exactly when no room does |
| `EventQueue.RecordsTables.FinishEvent` | src/records/adapters/postgresql.py:171-174 | marks the event done and nothing else |
| `EventQueue.RecordsTables.FailEvent` | src/records/adapters/postgresql.py:176-187 | one more attempt, due again after 30 s times the attempts, dead at the fifth |
| `EventQueue.RecordsTables.FillSide` | src/records/adapters/postgresql.py:194-216 | fills the missing side of a row that waits, none of them nearer to the save, or changes nothing exactly when none waits |
| `EventQueue.RecordsTables.AddMatch` | src/records/adapters/postgresql.py:218-232 | adds the room's two members, or the one player seen, with the event on its side |
| `EventQueue.RecordsTables.Resolve` | src/records/service.py:101-112 | the nearest waiting match of the event's room gets the event, or a new row is added |
| `EventQueue.RecordsTables.Attempt` | src/records/service.py:90-99 | wherever the attempt raises, what it wrote is undone and a retry recorded instead |
| `EventQueue.RecordsTables.ProcessNext` | src/records/service.py:80-88 | false exactly with no due event and nothing changed; otherwise the least due event alone is touched: done and settled on one row when nothing raises, else tried once more or dead at the fifth with the matches as they were; the pass is a run of the protocol that commits once |
| `EventQueue.ResolvedSettles` | src/records/service.py:101-112 | a resolved event is on one side of one row, its own player's with its own outcome, in the room found: the nearest row that waited with nothing else changed, or a new one because none waited |
| `EventQueue.PassIsARun` | src/records/service.py:80-112 | a pass with or without a fault is a run of the concurrent protocol's steps |
| `ChatStore.MemoryChatRepository.Append` | src/chat/adapters/memory_repository.py:20-32 | the next id, appended; past the bound the oldest is dropped |
| `ChatStore.MemoryChatRepository.ListSince` | src/chat/adapters/memory_repository.py:34-35 | the kept messages from the boundary on, in order |
| `ChatStore.MemoryChatRepository.Get` | src/chat/adapters/memory_repository.py:37-38 | a kept message of that id, or none exactly when none is kept |
| `ChatStore.MemoryChatRepository.Delete` | src/chat/adapters/memory_repository.py:40-41 | that id is gone and the rest kept in order |
| `ChatStore.SinceMembers` | src/chat/adapters/memory_repository.py:34-35 | a listing holds exactly the kept messages at or after the boundary |
| `ChatStore.WithoutIds` | src/chat/adapters/memory_repository.py:40-41 | after a deletion exactly the other messages are kept |
| `ChatStore.StoreStaysValid` | src/chat/adapters/memory_repository.py:16-41 | posting and deleting keep ids ascending, below the next id, and within the bound |
| `ChatStore.AppendKeepsTheNewest` | src/chat/adapters/memory_repository.py:16-32 | below the bound a post drops nothing, at it the oldest alone, and the next id is one higher |
| `ChatBus.Subscription.Offer` | src/chat/adapters/memory_bus.py:26-32 | refused exactly when the queue has a bound and holds that many events, otherwise queued last |
| `ChatBus.Subscription.Close` | src/chat/adapters/memory_bus.py:34-39 | what was queued is discarded and the end queued |
| `ChatBus.Subscription.Next` | src/chat/adapters/memory_bus.py:41-43 | yields what was queued first, in order, and ends at the close mark |
| `ChatBus.MemoryChatEventBus.Subscribe` | src/chat/adapters/memory_bus.py:51-56 | a fresh, empty, subscribed queue beside the others |
| `ChatBus.MemoryChatEventBus.Unsubscribe` | src/chat/adapters/memory_bus.py:57-58 | that stream alone is no longer fed |
| `ChatBus.MemoryChatEventBus.Publish` | src/chat/adapters/memory_bus.py:60-67 | every open stream gets the event last in its queue, except that one holding as many events as its bound is dropped and its queue becomes the end mark |
| `ChatBus.ChatService.RecentMessages` | src/chat/service.py:38-39 | exactly the kept messages from the previous play day's start on |
| `ChatBus.ChatService.PostMessage` | src/chat/service.py:41-47 | refused exactly within a second of the account's last post, with nothing changed; otherwise stored and announced to every open stream |
| `ChatBus.ChatService.DeleteMessage` | src/chat/service.py:49-56 | not found, forbidden, or deleted and announced; a refusal changes nothing |
| `ChatStream.StepKeepsInv` | src/chat/router.py:38-42 | every post, deletion, join, read, receipt and departure keeps the reader in step with the store |
| `ChatStream.AnyoneMayAct` | src/chat/service.py:38-56 | a post, a deletion of a kept message, a join, a read, a receipt and a departure can each come at any moment the reader's own state allows |
| `ChatStream.DrainedReaderShowsTheStore` | src/chat/router.py:34-42 | a subscribed reader with a drained queue shows, of what the store keeps, exactly the store's list in order, for every interleaving |
| `ChatStream.NothingDeletedIsShown` | src/chat/router.py:28-42 | a subscribed reader with a drained queue shows no deleted message, even if its snapshot was read late |
| `ChatStream.DeliveredWithoutGap` | src/chat/adapters/memory_bus.py:34-67 | what was received is a prefix of what was published since the join, all of it once drained; a dropped reader keeps a prefix and then its stream ends |
| `ChatStream.QueueIsBounded` | src/chat/adapters/memory_bus.py:20-32 | in every reachable state a subscribed reader's queue is within its bound, and a reader without a bound is subscribed |
| `ChatStream.DroppedExactlyWhenFull` | src/chat/adapters/memory_bus.py:60-67 | a reader joins subscribed with nothing queued, and from then on is dropped exactly by a post or deletion that meets as many queued events as its bound; otherwise the event is queued last |
| `ChatStream.ReadWithinADayReachesBack` | src/chat/domain.py:59-62 | a snapshot read within a day of subscribing starts before the subscription |
| `ChatStream.LateReadShowsMore` | src/chat/router.py:38-42 | for every later snapshot there is a run in which the drained reader and the store disagree |
| `Tracker.MatchmakingTracker.SendToSearching` | src/matching/matchmaking_tracker.py:107-118 | a player-match room sends nobody; any other sends all its players under its rank at this moment, and no one else |
| `Tracker.MatchmakingTracker.UpdateAndGetPhantoms` | src/matching/matchmaking_tracker.py:56-105 | after every snapshot the searching players are exactly those the history specification names, each under a vanished room's name and rank, and one phantom is answered for each |
| `Tracker.MatchmakingTracker.DropSeen` | src/matching/matchmaking_tracker.py:82-86 | exactly those seen in a room stop searching |
| `Tracker.MatchmakingTracker.DropExpired` | src/matching/matchmaking_tracker.py:88-93 | exactly those unseen for longer than the limit stop searching |
| `Tracker.MatchmakingTracker.ListPhantoms` | src/matching/matchmaking_tracker.py:97-105 | one phantom per searching player and no other |
| `Tracker.PhantomIsAVanishedPlayer` | src/matching/matchmaking_tracker.py:97-118 | each phantom is a rank-match room of one player whom the history calls searching, under the name and rank of a room they vanished with |
| `Tracker.SearchingPlayerIsShown` | src/matching/matchmaking_tracker.py:97-105 | each player the history calls searching has such a phantom |
| `Tracker.SearchingAfter` | src/matching/matchmaking_tracker.py:79-93 | how one more snapshot changes who is searching and since when |
| `Tracker.SearchingSinceIsUnique` | src/matching/matchmaking_tracker.py:107-118 | a searching player has one vanishing that counts |
| `Tracker.NeverBothInARoomAndSearching` | src/matching/matchmaking_tracker.py:82-86 | nobody searching is in a room of the snapshot as keyed by id |
| `Tracker.ListedPlayerCanBeAPhantom` | src/matching/matchmaking_tracker.py:59-86 | a player can be a phantom beside a list of rooms, after some history, exactly when no room that survives keying has them |
| `Tracker.DistinctIdsHideNobody` | src/matching/matchmaking_tracker.py:59-70 | with distinct room ids every listed player is in a keyed room |
| `Tracker.SharedIdShowsAPlayerTwice` | src/matching/matchmaking_tracker.py:59-86 | two rooms of one id: a player both listed and a phantom |
| `RpcnFraming.HeaderRoundTrips` | src/rpcn_client/client.py:280-300 | the 15-byte little-endian header decodes to what was encoded and encodes to what was decoded |
| `RpcnFraming.HeaderBytes` | README.md:344-351 | the four header fields byte by byte, least significant first |
| `RpcnFraming.FrontOfEncoded` | src/rpcn_client/client.py:296-303 | the packet read off an encoded stream is the one written, with the rest untouched |
| `RpcnFraming.NotificationsAreSkipped` | src/rpcn_client/client.py:296-313 | after any run of notifications the reply's own error and data are answered and the stream stands at the next packet |
| `RpcnFraming.RepliesAreRead` | src/rpcn_client/client.py:305-313 | past any notifications a reply's first byte is its error and the rest its data, an empty reply is neither, another type is an error naming it, and what follows is left |
| `RpcnFraming.ShortSizeIsNoPayload` | src/rpcn_client/client.py:302-303 | a size below the header's own means no payload |
| `RpcnFraming.CutStreamIsClosed` | src/rpcn_client/client.py:286-293 | a stream that ends anywhere before the reply is complete is a closed connection, never an answer |
| `RpcnFraming.RpcnClient.Send` | src/rpcn_client/client.py:280-284 | the next id, and the request appended to what was sent; one that does not fit its fields is not sent |
| `RpcnFraming.RpcnClient.RecvExact` | src/rpcn_client/client.py:286-293 | for every chunking exactly the first n bytes, or a closed connection when there are fewer |
| `RpcnFraming.RpcnClient.RecvReply` | src/rpcn_client/client.py:296-313 | for every chunking what parsing the whole stream answers: past any notifications, the reply's own error and data or the unexpected type, leaving what follows |
| `RpcnFraming.RpcnClient.RequestWithData` | src/rpcn_client/client.py:266-278 | one request sent; its reply's data is answered exactly if its error byte is zero or it is empty, else the refusal with that byte; a bad communication id or size sends nothing |
| `RpcnFraming.SentPacketsAreReadBack` | src/rpcn_client/client.py:280-284 | the other end reads back exactly the requests sent, in order |
| `RpcnFraming.DataRoundTrips` | src/rpcn_client/client.py:30-37 | a length-prefixed message is read back whole whatever follows it, a cut one as far as it goes, and one without room for the length is refused |
| `RpcnFraming.NextZero` | src/rpcn_client/client.py:44-44 | the first zero byte from a position on, or none exactly when there is none |
| `RpcnFraming.CStringsRoundTrip` | src/rpcn_client/client.py:40-45 | a zero-terminated string is read back with the position after it, and none exactly when no zero follows |
| `Reservations.CreateTakesTheNextOccurrence` | src/reservation/service.py:36-75 | taken exactly when the start is within the window, a rank match names ranks and one seat and a player match no ranks; then open, at that instant, and listed at once |
| `Reservations.SeatIsGivenExactlyWhenFree` | src/reservation/adapters/postgresql.py:249-292 | a join is accepted exactly for an account other than the host's with no seat, before the start, under capacity; it adds that seat, fills the reservation at capacity, and is otherwise refused for the right reason |
| `Reservations.LeavingFreesOneSeat` | src/reservation/adapters/postgresql.py:294-317 | accepted exactly for a seated account before the start; one seat is given up, the reservation is open, nothing else changes; else the right refusal |
| `Reservations.LeavingUndoesJoining` | src/reservation/adapters/postgresql.py:249-317 | leaving after joining restores every reservation and every reservation's active seats |
| `Reservations.EditChangesOnlyWhatWasSent` | src/reservation/service.py:81-117 | accepted exactly from the host, before the start, while empty, if the merged result is coherent and its start bookable; only what was sent changes; else the right refusal |
| `Reservations.CancellingEmptiesIt` | src/reservation/adapters/postgresql.py:363-369 | accepted exactly from the host of a live reservation before its start; it is cancelled and holds no seat |
| `Reservations.JoinKeepsDb` | src/reservation/domain.py:132-150 | joining keeps capacity, status, one seat an account and no seat of the host's |
| `Reservations.SweepKeepsDb` | src/reservation/adapters/postgresql.py:104-125 | ending what is over and giving up exactly its seats keeps the tables consistent |
| `Reservations.ReservationRepository.Create` | src/reservation/adapters/postgresql.py:193-206 | adds the open reservation, or refuses with nothing changed |
| `Reservations.ReservationRepository.Update` | src/reservation/adapters/postgresql.py:208-228 | the edit in the order of checks the service and the repository make, with the matching refusal |
| `Reservations.ReservationRepository.Join` | src/reservation/adapters/postgresql.py:249-292 | one more seat and the status it makes, or a refusal with nothing changed |
| `Reservations.ReservationRepository.CancelParticipation` | src/reservation/adapters/postgresql.py:294-317 | the account's seat given up and the status recomputed, or the matching refusal |
| `Reservations.ReservationRepository.Cancel` | src/reservation/adapters/postgresql.py:363-369 | the reservation cancelled and all its seats given up, or the matching refusal |
| `Reservations.ReservationRepository.ListUpcoming` | src/reservation/adapters/postgresql.py:165-184 | exactly the live reservations less than an hour past their start and before the next dawn are listed, and those further past are ended with their seats |
| `ReservationRuns.StepKeepsInv` | src/reservation/adapters/postgresql.py:104-125 | every operation, and every statement and commit of a sweep with others between, keeps the invariant |
| `ReservationRuns.AnyRequestMayCome` | src/reservation/service.py:31-150 | every request can come at any moment, also between a listing's statements, and does what its operation does |
| `ReservationRuns.ReservationsAreConsistent` | src/reservation/domain.py:113-134 | in every reachable state a live reservation is within capacity and matched exactly when full, and any other has no seat |
| `ReservationRuns.SeatsAreFair` | src/reservation/domain.py:137-150 | in every reachable state no account holds two seats of a reservation and its host none |
| `ReservationRuns.OverIsFinal` | src/reservation/domain.py:159-172 | a cancelled or ended reservation never changes again, and a passed start never moves |
| `ReservationRuns.SweepIsWhole` | src/reservation/adapters/postgresql.py:104-125 | whatever came between its statements and its commit, a sweep ends exactly the reservations over at its clock and frees exactly their seats |
| `ReservationRuns.SeenAsOne` | src/reservation/adapters/postgresql.py:104-125 | the rows chosen by the second statement are still those over at the sweep's clock when it reads or commits |
| `ReservationRuns.ListingIsComplete` | src/reservation/adapters/postgresql.py:165-184 | at any moment after its sweep, whatever others committed meanwhile, a listing reads exactly what is live, unless a dawn passed since the sweep's clock |
| `ReservationRuns.DawnBetweenHidesARow` | src/reservation/adapters/postgresql.py:173-184 | whenever a dawn did pass before the read, some run leaves a live reservation out of the listing |
| `Idempotency.IdempotencyService.Claim` | src/idempotency/adapters/postgresql.py:12-33 | takes a free key, answers a spent one's stored answer, refuses another request's |
| `Idempotency.IdempotencyService.Complete` | src/idempotency/adapters/postgresql.py:35-40 | stores the answer with the key and changes nothing else |
| `Idempotency.IdempotencyService.RunOnce` | src/idempotency/service.py:22-37 | refused exactly for a key of another request, with nothing changed; a key free or without a stored answer is written once with the write's own answer, stored and returned; a stored answer is returned with nothing written |
| `Idempotency.OneWriteOneAnswer` | src/idempotency/service.py:31-37 | over every interleaving, a key has at most one committed write and every call that succeeds with it that write's non-null answer, exactly if no committed write under it answered null |
| `Idempotency.OnlyOwnersBlock` | src/idempotency/adapters/postgresql.py:13-22 | in every run a claim waits for nothing but an owner of its key, and a transaction under way for nothing |
| `Idempotency.WritesAreAnswered` | src/idempotency/service.py:35-37 | in every run each committed write's answer was returned to its caller |
| `Idempotency.AbortFreesTheKey` | src/idempotency/adapters/postgresql.py:13-22 | an aborted owner leaves no row and no write, and the next claim of the key runs |
| `Idempotency.OtherRequestIsRefused` | src/idempotency/adapters/postgresql.py:31-32 | a key spent on another request can neither write nor commit, and aborting changes nothing |
| `Idempotency.RetryWritesAgainIffNull` | src/idempotency/service.py:32-37 | a retry is answered from the store if the first answer was not null, and writes a second time if it was |
| `Boards.Board` | src/saves/domain.py:106-115 | a sorted permutation, ordered by key and then name, in which each place is one more than the number strictly better |
| `Boards.CurrentRankBoard` | src/saves/domain.py:106-115 | the players with a character, by standing and then name, each placed one after those strictly better |
| `Boards.Achievers` | src/event/domain.py:140-150 | the players with an achieved slot, by climb and then name, each placed one after those who climbed further |
| `Boards.SortedIsAPermutation` | src/saves/domain.py:109-109 | the sort keeps every item and orders by key and then name |
| `Boards.LessIsLexicographic` | src/saves/domain.py:109-109 | keys and names compare at the first place they differ, a shorter one being less than what extends it |
| `Boards.BetterIsASize` | src/saves/domain.py:110-114 | the number strictly better is the number of items with a lesser key |
| `Boards.RankedOnce` | src/saves/domain.py:109-109 | every player with a character is ranked once for each time they are given |
| `Boards.RankedByStanding` | src/saves/domain.py:109-109 | exactly the players with a character are ranked |
| `Boards.AchieversClimbed` | src/event/domain.py:142-144 | exactly the players with an achieved slot are ranked |
| `Boards.AchievedOnce` | src/event/domain.py:142-144 | every player with an achieved slot is ranked once for each time they are given |
| `Boards.FurtherClimbIsBetter` | src/event/domain.py:143-143 | a better key is a further climb |
| `Boards.StandingOrder` | src/saves/domain.py:118-121 | a standing is better by first rank, then second rank, then first points, then second points |
| `Boards.SingleStanding` | src/saves/domain.py:118-121 | where a player with one character stands against one with two or with one, and that further characters do not count |
| `Boards.TopTwoAreHighest` | src/saves/domain.py:72-74 | a highest character and a highest of the others, each the earliest among its equals |
| `Boards.TopTwoIsTheBestStanding` | src/saves/domain.py:72-121 | no ordered pair of a player's characters has a better standing than the two kept |
| `Boards.RankAmongTheRest` | src/matching/service.py:66-75 | an entry that stays is ranked correctly among those that stay exactly if it was among all |
| `Boards.CountBelowIsASize` | src/matching/service.py:69-73 | an entry moves up by the number of excluded entries with a lesser rank |
| `Boards.ExclusionIsReRanking` | src/matching/service.py:66-75 | a board ranked from 1 without its excluded entries is exactly the competition ranking of the rest, in the same order, and is shorter by the excluded |

## Left out

- HTTP routing, request models, authentication, dependency wiring, caches, metrics, migrations and error texts.
- The PostgreSQL chat store: there the append and the announcement are separate steps, so convergence is proved for the memory store and bus only.
- Searching matches by name, online names, the order and the limit of the weekly top and of the opponents list, and its excluded accounts.
- The event's baseline, slot and judging rules, and the list of holders by rank: only arithmetic and comparisons of one body.
- Connecting, TLS, timeouts, the login exchange, protobuf and UTF-8 decoding: a socket is any source of bytes in any chunks.
- The owner and member fields of a phantom room that repeat its one user, and the order phantoms are listed in.
- Which rooms the collector's touch picks: a step of `Consumers` may move any room's last sighting to any moment.
- Concurrent edits of one reservation: each operation but the sweep is one atomic step. The memo and comments.
- Case folding: a player's folded name is taken as given. The order in which a listing shows reservations.
- The fingerprint: it is an integer that two requests share only if they are the same request.
- Replaying a creation past its window, which is refused before the key is looked at: idempotency is stated where the key is claimed.
- Rows kept from before accounts held seats.
- Capture.CaptureAdvances: assumes the server answers ascending distinct ids and no unreadable save, because an unreadable save at the front is read again by the next capture.
