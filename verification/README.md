# KhaApp verification

KhaApp is a WhatsApp client in two processes: a Go daemon that owns the protocol connection and a
local message store, and a Qt frontend that talks to it over D-Bus. This project models the
stateful centre of both in Dafny and proves properties of the model. `dafny verify dfyconfig.toml`
checks all of it.

| file | what it models |
|---|---|
| `Messages.dfy`, `Store.dfy`, `MessageStore.dfy` | the message table: the upsert of `Save`, the three updates, the store object |
| `History.dfy`, `MergeAlgebra.dfy` | what a row says about the log of operations; replay of saves |
| `Sequences.dfy`, `Sorting.dfy`, `Queries.dfy`, `Search.dfy` | paging, newest row per chat, search |
| `Unread.dfy` | unread counts, the chat list, the tray total |
| `ChatPage.dfy` | the list algorithms of the chat page |
| `FirstUrl.dfy`, `LinkPreview.dfy` | the first-URL scanner and the Open Graph walk |
| `Events.dfy`, `Reconnect.dfy`, `Status.dfy` | event pipeline, reconnect loops and status signals as interleaved steps |
| `PageReceipts.dfy` | when the receipts on the chat page are the stored ones |
| `Avatars.dfy`, `GroupCache.dfy` | the two caches as interleaved steps |
| `AppLock.dfy` | the application lock against an unreliable wallet |

The store, the chat page, the link-preview walk, the D-Bus bridge and the lock are classes whose
methods update their fields; each method is tied to a function of the old state, and the results
are lemmas about those functions. The concurrent parts are state machines: one step per region
under a lock, per `select`, per channel operation and per call into a library, and the results hold
in every state of every interleaving.

Rows are kept in rowid order. `ORDER BY timestamp DESC` leaves ties open; the model resolves them in
rowid order, which is what the `(jid, timestamp DESC)` index yields. Queries and statements succeed.

Where the code does not do what its comments or its callers expect, the model follows the code:

- `GetRecentChats` promises the newest message for every chat but returns every row tied at the
  newest timestamp (`Queries.RecentChatsListsEveryTie`); the tray total inherits this
  (`Unread.TrayTotalAgainstGlobalUnread` says exactly when it is off, `Unread.TrayShowsFourForTwo`
  gives a log).
- `loadMoreMessages` puts each older batch in front newest-first, so the list is chronological only
  under the condition of `ChatPages.ModelIsChronologicalExactlyWhen`; 52 messages and one load break
  it (`ChatPages.FiftyTwoMessagesGetOutOfOrder`).
- The deferred `StopReconnect` of a loop does not look which loop it stops
  (`Reconnect.SuccessorIsCancelledExactlyWhen`, `Reconnect.ExitingLoopCanCancelItsSuccessor`).
- `startReconnectLoop` takes a non-nil `cancelRetry` for a loop that will retry, also when that loop
  has returned and only its deferred stop is left; the event is then lost
  (`Reconnect.DisconnectedIsRetriedExactlyWhen`, `Reconnect.DisconnectedCanBeLost`).
- `setStatus` emits after unlocking, so signals can overtake one another
  (`Status.QuietFrontendFollowsExactlyWhen`, `Status.LoginSignalCanOutliveTheLogin`).
- A receipt handled before the outgoing row is saved is lost to the store
  (`Events.StoreHoldsTheReceiptExactlyWhen`, `Events.ReceiptBeforeSaveIsLost`).
- The chat page takes receipts as they come while the store keeps the maximum
  (`PageReceipts.PageEqualsTheStoreExactlyWhen`, `Events.LateDeliveredLowersThePage`).
- `loadMoreMessages` counts its offset from the newest row, so rows saved since the reload without
  being announced make it fetch rows again (`ChatPages.RowsRepeatExactlyWhen`).
- `enableLock` does not look at the result of `writePassword`, so it can lock the application with
  no pin that opens it (`AppLocks.NoPinOpensExactlyWhen`, `AppLocks.FirstPinIsLost`) or leave the old
  pin in force (`AppLocks.UnwrittenPinOpensExactlyWhen`).
- `avatarCachePath` maps several characters to one, so jids outside the usual shape can share an
  avatar file (`Avatars.TwoJidsOneFile`).
- `ExtractFirstURL` can return a bare scheme that it would not find again (`FirstUrl.BareSchemeIsNotKept`).
- A group load that an invalidation overtakes caches the old value
  (`GroupCache.CacheIsFreshExactlyWhen`, `GroupCache.InvalidationCanBeOvertaken`).
- A search query that holds `%` or `_` matches more than its own text
  (`Search.SearchIsSubstringSearchExactlyWhen`).

## Model

| member | source | states |
|---|---|---|
| `MessageDatabase.MessageStore.Save` | daemon/storage/messages.go:100-156 | a save fills the preview, inserts a new id or merges into the stored row, and appends to the history |
| `MessageDatabase.MessageStore.UpdateReceipt` | daemon/storage/messages.go:253-256 | raises the receipt of the row with that id and changes nothing else |
| `MessageDatabase.MessageStore.UpdateLocalPath` | daemon/storage/messages.go:247-250 | sets the path of the row with that id and changes nothing else |
| `MessageDatabase.MessageStore.MarkJIDAsRead` | daemon/storage/messages.go:259-262 | marks exactly the incoming rows of the chat |
| `MessageDatabase.MessageStore.GetByID` | daemon/storage/messages.go:228-244 | the row stored under the id, or none |
| `MessageDatabase.MessageStore.RowsAreExplained` | daemon/storage/messages.go:100-156 | the rows of any store object are the ones its history explains |
| `Store.ApplyIsRowStep` | daemon/storage/messages.go:112-132 | every statement acts on each row by its own id alone |
| `Store.RunHasUniqueIds` | daemon/storage/messages.go:65 | ids stay a primary key in every history |
| `Store.RowsKeepTheirPlace` | daemon/storage/messages.go:100-156 | rows keep their rowid order and a new id comes last |
| `History.HistoryRefinement` | daemon/storage/messages.go:100-156 | after any log of operations a row exists exactly when its id was saved, and each column is the one read off the saved messages by position: last save, last non-blank save, maximum receipt, read flag, local path |
| `History.PreviewIsReadOffTheLog` | daemon/storage/messages.go:100-103 | after any log url_preview is that of the last save which brought a preview along or has a URL in its text, that URL as written out in literals; empty if there is none |
| `Messages.FilledPreview` | daemon/storage/messages.go:101-103 | a save keeps a given preview, otherwise takes the first URL of the text, and changes no other column |
| `History.ExplainedRowIsUnique` | daemon/storage/messages.go:112-132 | that reading determines the whole row |
| `History.ReceiptsNeverDecrease` | daemon/storage/messages.go:252-256 | rows stay and their receipts never go down, whatever follows |
| `MergeAlgebra.MergeIsABand` | daemon/storage/messages.go:112-132 | the upsert is associative, idempotent and satisfies x.y.x = y.x up to NULL against empty blobs |
| `MergeAlgebra.SameMeansEqualButForBlobs` | daemon/storage/messages.go:126-130 | rows that count as the same are equal in every column but for empty blobs |
| `MergeAlgebra.BlobsKeepTheLawFromBeingExact` | daemon/storage/messages.go:126-130 | when the last law holds without that identification |
| `MergeAlgebra.NullAndEmptyBlobBreakTheLaw` | daemon/storage/messages.go:126-130 | two rows for which it does not |
| `MergeAlgebra.RepeatedSaveIsRedundant` | daemon/storage/messages.go:100-156 | deleting a save that is repeated after further saves changes no row, with any history before and after |
| `Sorting.SortedIsAStableSort` | daemon/storage/messages.go:167 | newest first: descending, same rows, ties in their original order |
| `Sorting.StableOrderIsUnique` | daemon/storage/messages.go:167 | no other sequence has these three properties |
| `Queries.PagesTile` | daemon/storage/messages.go:159-179 | consecutive pages of one chat concatenate to the larger page, newest first, with the length the chat allows |
| `Queries.PageIsTheNewestCut` | daemon/storage/messages.go:159-179 | a page holds rows of its chat only, none more often than stored, and what it leaves out is at least as old, and left out only by a full page |
| `Queries.RecentChatsAreTheNewestRows` | daemon/storage/messages.go:205-225 | a row is listed exactly when no row of its chat is newer |
| `Queries.RecentChatsListsEveryTie` | daemon/storage/messages.go:204-225 | newest first, a chat is listed once per tied newest row, so once if and only if that row is unique |
| `Queries.GetRecentChats` | daemon/storage/messages.go:205-225 | grouping, joining and sorting by loops computes that list |
| `Queries.GetByJID` | daemon/storage/messages.go:159-179 | filtering, sorting and slicing by loops computes the page |
| `Search.FoldsAsciiCaseOnly` | daemon/storage/messages.go:189 | letter case is ignored for the ASCII letters and nothing else is identified |
| `Search.LikeByCases` | daemon/storage/messages.go:189 | LIKE by cases: % stands for any run, _ for one character, any other character for its letter |
| `Search.MatchesSomePart` | daemon/storage/messages.go:182-202 | for every query a text matches exactly when some part of it is LIKE the query |
| `Search.SubstringsMatch` | daemon/storage/messages.go:182-202 | every text that contains the query, letter case aside, matches |
| `Search.SearchIsSubstringSearchExactlyWhen` | daemon/storage/messages.go:189-193 | LIKE without ESCAPE is substring search for all texts if and only if the query holds no wildcard |
| `Search.SearchRespectsTheLimit` | daemon/storage/messages.go:191-193 | for every query and limit: min(limit, matching rows of the chat) rows, newest first, none more often than stored |
| `Search.SearchFindsTheNewestMatches` | daemon/storage/messages.go:182-202 | for every query the result holds matches of the chat only, and a match left out is no newer than any row of a full result |
| `Search.LiteralSearchFindsTheNewestHits` | daemon/storage/messages.go:182-202 | for a literal query the result holds only containing messages of the chat, and what it omits is no newer than any row of a full result |
| `Search.SearchByJID` | daemon/storage/messages.go:182-202 | the loops compute that result |
| `Unread.GetUnreadCount` | daemon/storage/messages.go:265-272 | the loop counts the unread incoming rows of the chat |
| `Unread.UnreadCountIsCardinality` | daemon/storage/messages.go:265-272 | the count is the number of rows of the chat that are incoming and not read |
| `Unread.SaveChangesOneRow` | daemon/storage/messages.go:100-156 | a save moves every count by what happens to its own row |
| `Unread.NewMessageCountsOnce` | daemon/storage/messages.go:100-156 | a new unread incoming message adds one to its own chat only |
| `Unread.ReplayRaisesACountExactlyWhen` | daemon/storage/messages.go:112-132 | which replays of a stored id raise a count: none in the same chat and direction |
| `Unread.UpdatesAndUnreadCounts` | daemon/storage/messages.go:246-262 | marking empties its chat and leaves the others; receipts and paths change no count |
| `Unread.GetChats` | daemon/dbus/service.go:364-411 | one entry per listed row, field by field: a group takes a non-empty group name, any other chat a non-empty contact name, otherwise the jid; text, time, group flag and avatar path are those of the row and its answers, unread its count modulo 2^32 as int32 |
| `Unread.GetTotalUnread` | app/src/dbusbridge.cpp:327-343 | the loop adds the unread numbers of the chat list |
| `Unread.TotalAddsEveryEntry` | app/src/dbusbridge.cpp:327-343 | the total starts at 0 and every entry adds its number |
| `Unread.GlobalUnreadIsTheSumOverChats` | daemon/storage/messages.go:265-272 | unread messages counted directly or chat by chat agree |
| `Unread.TrayTotalCountsTies` | app/src/dbusbridge.cpp:327-343 | the tray total is the sum over chats of ties times unread count |
| `Unread.TrayTotalAgainstGlobalUnread` | app/src/dbusbridge.cpp:327-343 | it is never below the unread messages, and equal exactly when every chat with unread messages has one newest row |
| `Unread.TrayShowsFourForTwo` | app/src/dbusbridge.cpp:327-343 | two saves after which a chat is listed twice and the tray shows four where two messages are unread |
| `ChatPages.PagesAreBounded` | daemon/dbus/service.go:413-428 | GetMessages clamps limit and offset, so its pages are never unbounded although the store's can be |
| `ChatPages.PageStartsAtTheOffset` | daemon/dbus/service.go:413-428 | row by row a page is the history from its clamped offset on |
| `ChatPages.ChatPage.ReloadMessages` | app/qml/ChatPage.qml:89-104 | the page becomes the newest fifty, oldest first |
| `ChatPages.ChatPage.LoadMoreMessages` | app/qml/ChatPage.qml:106-118 | the next batch is put in front newest-first and counted |
| `ChatPages.ChatPage.OnMessageAcknowledged` | app/qml/ChatPage.qml:162-169 | sets the receipt of the first item with the id |
| `ChatPages.ReloadThenLoad` | app/qml/ChatPage.qml:89-118 | contents and counter of the page after a reload and any number of loads |
| `ChatPages.ModelLayout` | app/qml/ChatPage.qml:89-118 | the exact position of every message after k loads |
| `ChatPages.ModelHoldsTheNewestOnce` | app/qml/ChatPage.qml:89-118 | over one unchanged table the page holds the newest min(n, 50+25k) messages, each once |
| `ChatPages.RowsRepeatExactlyWhen` | app/qml/ChatPage.qml:106-118 | how many rows of the page the next batch repeats after newer rows were saved, m of them in the chat: none exactly when m is 0, the chat was or the batch is empty, or m is so large that the batch lies among the newer rows |
| `ChatPages.LoadAfterNewerRows` | app/qml/ChatPage.qml:89-118 | the page after a reload, k loads, those saves and one more load |
| `ChatPages.ModelIsChronologicalExactlyWhen` | app/qml/ChatPage.qml:113-115 | the list is chronological if and only if every loaded batch lies at one timestamp |
| `ChatPages.FiftyTwoMessagesGetOutOfOrder` | app/qml/ChatPage.qml:113-115 | 52 or more messages saved a second apart are out of order after the first load |
| `ChatPages.ReversedLoopIsChronological` | app/qml/ChatPage.qml:113-115 | with the insert loop reversed the page is the newest messages in reverse, and so always chronological |
| `ChatPages.ReloadThenLoadInOrder` | app/qml/ChatPage.qml:89-118 | loading with that reversed loop computes that page |
| `FirstUrl.FirstURLIsLeftmostMaximalRun` | daemon/storage/messages.go:366-371 | the result is the leftmost maximal whitespace-free run less its trailing cutset, scheme kept whole, or empty without a match |
| `FirstUrl.FirstURLIsUnique` | daemon/storage/messages.go:366-371 | that description fixes the result |
| `FirstUrl.ExtractFirstURLInLiterals` | daemon/storage/messages.go:366-371 | the same with both schemes, the white space and the punctuation written out: a string is the result if and only if it is that span of the text, or empty when there is no start |
| `FirstUrl.ExtractTwice` | daemon/storage/messages.go:366-371 | extracting again gives the same string if and only if more than the scheme survives the trim |
| `FirstUrl.BareSchemeIsNotKept` | daemon/storage/messages.go:366-371 | a text for which it does not |
| `LinkPreviews.Walker.Walk` | daemon/protocol/linkpreview.go:44-87 | the early-exit walk captures what a full preorder scan captures, for every tree |
| `LinkPreviews.FetchLinkPreview` | daemon/protocol/linkpreview.go:44-93 | each field is the first non-empty candidate in document order, with the title element as fallback |
| `LinkPreviews.CandidatesInLiterals` | daemon/protocol/linkpreview.go:53-80 | what the four candidates of a node are, from its attributes and its first child |
| `LinkPreviews.AttrValueIsFirst` | daemon/protocol/linkpreview.go:95-102 | the value of an attribute is the trimmed value of the first one with that name, or empty |
| `LinkPreviews.PreorderIsDocumentOrder` | daemon/protocol/linkpreview.go:82-84 | the scan lists every node of the document once, ancestors before what they hold and earlier children before later ones |
| `LinkPreviews.First` | daemon/protocol/linkpreview.go:61-79 | the scan finds the first non-empty candidate |
| `LinkPreviews.FirstIsUnique` | daemon/protocol/linkpreview.go:61-79 | there is only one such value |
| `LinkPreviews.ScanOfConcat` | daemon/protocol/linkpreview.go:82-84 | scanning in two parts is scanning once |
| `Events.BuildStoredMessage` | daemon/protocol/client.go:330-417 | the stored form of a message event, field by field in the fields of the event: conversation, else extended text, else the caption of an image, document or video |
| `Events.MapReceiptType` | daemon/protocol/client.go:452-461 | delivered is 1, the read and played kinds are 2, any other kind is 0 |
| `Events.ChannelConservesEvents` | daemon/protocol/client.go:69-73 | handled = delivered + queued + dropped, at most 32 queued, delivery in handling order |
| `Events.DroppedExactlyWhenFull` | daemon/protocol/client.go:69-73 | an event is dropped exactly when 32 are waiting, otherwise it is queued last |
| `Events.EmittedSignalsFollowDelivery` | daemon/dbus/service.go:185-233 | the emitted signals are exactly those of the delivered events, in order, id by id |
| `Events.DeliveredMessagesAreAnnounced` | daemon/dbus/service.go:197-203 | every delivered incoming message with a conversation or an extended text is announced with it |
| `Events.PersistedBeforeNotified` | daemon/protocol/client.go:61-73 | an announced message is stored, was not sent by the user, and carries the text its handler saved |
| `Events.HandledMessagesAreStored` | daemon/protocol/client.go:61-73 | every handled message with a text or an attachment is stored, also when its event is dropped |
| `Events.SavesHaveASource` | daemon/protocol/client.go:63-67 | nothing else is stored: every save was called for over D-Bus or handled a message with a text, a caption or an attachment |
| `Events.StoreHoldsTheReceiptExactlyWhen` | daemon/protocol/client.go:95-107 | the store holds an announced receipt if and only if one as high was handled while the row existed |
| `Events.PageIsNeverAheadOfTheStore` | app/qml/ChatPage.qml:162-169 | the chat page shows no receipt above the stored one for messages whose receipts came after their row |
| `PageReceipts.PageEqualsTheStoreExactlyWhen` | app/qml/ChatPage.qml:162-169 | for these messages there is a step that last wrote the shown item, and the page shows the stored receipt if and only if that step was not a delivery of another receipt and no handler has raised the stored one since |
| `PageReceipts.RaisedSinceTheWriter` | daemon/protocol/client.go:69-107 | a receipt raised since then is still on its way to the page or was dropped by the full channel |
| `PageReceipts.SettledPageEqualsTheStoreExactlyWhen` | app/qml/ChatPage.qml:162-169 | with nothing on its way and nothing dropped for the message, the page shows the stored receipt if and only if the last write was not a delivery of another receipt |
| `PageReceipts.ReloadAgrees` | app/qml/ChatPage.qml:89-104 | after a reload the page holds the loaded messages and all of them agree with the store |
| `Events.LateDeliveredLowersThePage` | app/qml/ChatPage.qml:162-169 | a run in which a late Delivered leaves the page below the stored Read |
| `Events.ReceiptBeforeSaveIsLost` | daemon/dbus/service.go:340-346 | in the other order the page can end up above the store |
| `Reconnect.ContextsInEveryRun` | daemon/protocol/client.go:277-328 | at most one context is uncancelled and cancelRetry is that one; finished loops leave theirs cancelled; a cancelled loop connects at most once more |
| `Reconnect.PendingRetryHasAnUnfinishedLoop` | daemon/protocol/client.go:292-296 | a non-nil cancelRetry belongs to the one loop whose context is uncancelled, and that goroutine has not finished; it may have returned with its deferred stop still to run |
| `Reconnect.SomeLoopRetriesExactlyWhen` | daemon/protocol/client.go:277-328 | in every state a loop goes on trying if and only if cancelRetry is set and its loop has not returned |
| `Reconnect.DisconnectedIsRetriedExactlyWhen` | daemon/protocol/client.go:287-303 | a Disconnected event with a session leaves a loop that tries to connect if and only if it did not find the cancelRetry of a loop that has returned; that loop tries until it returns, StopReconnect is called or another loop's exit stops it, and no longer |
| `Reconnect.RetriesUntilEnded` | daemon/protocol/client.go:277-328 | the second half for any loop from any state of a run |
| `Reconnect.LoopStepsBalance` | daemon/protocol/client.go:305-326 | in every run, counting the steps of a loop: it wakes from each select it blocked in, checks after each timer, calls Connect after each check that found no connection, goes round once per failed Connect, and returns once |
| `Reconnect.RetryingLoopReachesConnect` | daemon/protocol/client.go:307-317 | from any state of any run a loop that goes on trying gets into Connect by its own next steps, at most three |
| `Reconnect.DisconnectedCanBeLost` | daemon/protocol/client.go:293-303 | a run with starts in turn, no StopReconnect and no cancelled successor that ends disconnected without a loop |
| `Reconnect.OneLoopPerStart` | daemon/protocol/client.go:287-302 | loops start for Disconnected events that find a session and no pending retry, one each, and for nothing else |
| `Reconnect.LoopsStopExactlyWhen` | daemon/protocol/client.go:306-326 | a loop is over if and only if it found the client connected, connected it, or saw its context cancelled |
| `Reconnect.SuccessorIsCancelledExactlyWhen` | daemon/protocol/client.go:303 | an exiting loop cancels another one if and only if its own context was cancelled before and a loop is current |
| `Reconnect.OrderlyStartsKeepSuccessors` | daemon/protocol/client.go:287-303 | if loops start only after earlier ones are done, no exit cancels another loop |
| `Reconnect.ExitingLoopCanCancelItsSuccessor` | daemon/protocol/client.go:303 | an interleaving that ends disconnected with no live loop |
| `Reconnect.EveryLoopBacksOff` | daemon/protocol/client.go:305-323 | in every run the k-th wait is min(2^k, 60) seconds and the waits add up to the closed form |
| `Reconnect.TotalWaitClosedForm` | daemon/protocol/client.go:305-323 | the sum of the first n waits |
| `Status.WritesAreAnnouncedOnce` | daemon/dbus/service.go:665-680 | consecutive writes differ, the status is the last write, and emitted plus owed signals announce each write once |
| `Status.WritesAreTheChanges` | daemon/dbus/service.go:665-680 | the status is the last value handed to setStatus, and the announced writes are exactly its changes, in order |
| `Status.LoginsAreAnnouncedOnce` | daemon/dbus/service.go:204-206 | emitted plus owed LoginSuccessful signals are one per login |
| `Status.QuietFrontendMatchesExactlyWhen` | daemon/dbus/service.go:665-680 | in any state where nothing is owed the frontend equals the daemon if and only if the last emission, which left nothing owed, showed the status |
| `Status.QuietFrontendFollowsExactlyWhen` | daemon/dbus/service.go:665-680 | throughout a run the frontend equals the daemon whenever nothing is owed, if and only if no emission of the only owed signal shows another status |
| `Status.MisleadingSignalWasOvertaken` | daemon/dbus/service.go:665-680 | such an emission is exactly one of an older signal that the newest one, showing something else, has overtaken |
| `Status.FrontendFollowsExactlyWhen` | daemon/dbus/service.go:665-680 | the stronger property of every state, also while signals are owed: delivering the rest in write order would reach the status, if and only if no newest signal overtakes its predecessor |
| `Status.SerialisedFrontendMatches` | app/src/dbusbridge.cpp:294-301 | with one writer at a time the frontend equals the daemon once nothing is owed, LoginSuccessful included |
| `Status.LoginSignalCanOutliveTheLogin` | daemon/dbus/service.go:204-206 | two writers can leave the frontend connected after a logout |
| `Status.DBusBridge.SetConnectionStatus` | app/src/dbusbridge.cpp:317-325 | stores the status and notifies only on change |
| `Status.DBusBridge.Deliver` | app/src/dbusbridge.cpp:234-301 | after a sequence of signals the frontend shows the last one |
| `Avatars.SameFileExactlyWhen` | daemon/dbus/service.go:741-753 | two jids share an avatar file if and only if they differ only within the characters @ . / and _ |
| `Avatars.SanitizeIsInjective` | daemon/dbus/service.go:741-753 | over well-formed jids no two do |
| `Avatars.EveryRunIsSingleFlight` | daemon/dbus/service.go:581-622 | a jid is marked exactly while one worker for it is under way, in every interleaving |
| `Avatars.ScheduleStartsAWorkerExactlyWhen` | daemon/dbus/service.go:581-589 | in every run a call starts a worker if and only if none is under way for the jid |
| `Avatars.FetchRunsToItsEnd` | daemon/dbus/service.go:590-621 | an undisturbed fetch makes its calls in order, writes the file before it emits AvatarUpdated, and unmarks the jid |
| `Avatars.FailedFetchCanBeRetried` | daemon/dbus/service.go:591-615 | a fetch that fails at any call ends and leaves the jid unmarked |
| `Avatars.OneWriterPerFile` | daemon/dbus/service.go:581-622 | over well-formed jids at most one worker holds an avatar file |
| `Avatars.TwoWritersForOneFile` | daemon/dbus/service.go:581-622 | any two jids with one file can have two workers writing it |
| `Avatars.TwoJidsOneFile` | daemon/dbus/service.go:741-753 | two jids with one file, and the run in which two workers write it |
| `GroupCache.CacheHoldsTheLastStore` | daemon/dbus/service.go:533-572 | the cached entry is the last store since the last invalidation |
| `GroupCache.ServedExactlyWhenStoredWithinFiveMinutes` | daemon/dbus/service.go:534-538 | a lookup is served from the cache exactly when that store is less than five minutes old, with its value |
| `GroupCache.LookupLoadsExactlyWhenExpired` | daemon/dbus/service.go:533-541 | a lookup starts a load if and only if there is no store less than 300 seconds old since the last invalidation |
| `GroupCache.LoadsEndExactlyWhen` | daemon/dbus/service.go:541-565 | a load ends when its value is stored or its fetch fails, and in no other way |
| `GroupCache.ValuesWereFetched` | daemon/dbus/service.go:541-565 | a cached value is the one that its own fetch brought for that group |
| `GroupCache.CacheIsFreshExactlyWhen` | daemon/dbus/service.go:541-572 | nothing fetched before an invalidation is ever cached after it if and only if no store was overtaken |
| `GroupCache.UninterruptedRunsAreFresh` | daemon/dbus/service.go:541-572 | uninterrupted loads keep the cache fresh |
| `GroupCache.InvalidationCanBeOvertaken` | daemon/dbus/service.go:558-572 | an interleaving that serves a stale value |
| `AppLocks.AppLock.EnableLock` | app/src/applock.cpp:22-38 | the state after enabling, with each failure path |
| `AppLocks.AppLock.DisableLock` | app/src/applock.cpp:40-52 | the state after disabling |
| `AppLocks.AppLock.Unlock` | app/src/applock.cpp:54-71 | succeeds exactly for the stored pin with an open wallet |
| `AppLocks.AppLock.Lock` | app/src/applock.cpp:73-81 | locks when enabled |
| `AppLocks.AppLock.InitializeState` | app/src/applock.cpp:83-96 | follows the wallet entry when the wallet opens |
| `AppLocks.LockedImpliesEnabled` | app/src/applock.cpp:22-96 | in every reachable state locked implies enabled, and a wallet that starts without a pin shorter than four never holds one |
| `AppLocks.FlagsAreReadOffTheLog` | app/src/applock.cpp:22-96 | in every run both flags are what the last effective operation made them: which operations raise and lower each, with an open wallet and a pin of four characters; all others change nothing |
| `AppLocks.OnlyThePinUnlocks` | app/src/applock.cpp:22-96 | after a stored pin the application is unlocked exactly when that pin opened it and nothing locked it since, whatever fails in between |
| `AppLocks.NoPinOpensExactlyWhen` | app/src/applock.cpp:22-96 | a locked application has a pin that opens it if and only if the wallet holds one; it has none exactly when enableLock failed to write into a wallet without a pin and nothing has put the wallet right since |
| `AppLocks.FirstPinIsLost` | app/src/applock.cpp:33-35 | one enableLock that is not written to an empty wallet leaves such a lock |
| `AppLocks.LastWrittenPinOpens` | app/src/applock.cpp:22-96 | in every run the pin that opens a locked application is the last one really written and not removed since, or the one found at the start |
| `AppLocks.UnwrittenPinOpensExactlyWhen` | app/src/applock.cpp:33-35 | after a pin that could not be written, and until the entry changes, a pin opens the lock if and only if the wallet held it before |

## Left out

- WhatsApp networking, pairing, media decryption and contact lookup: their answers are arbitrary inputs.
- `RequestLogin`, `Logout` and `AutoConnect` as programs: their status writes and stops appear as the steps of the status and reconnect machines.
- `DownloadMedia`: appears only as an update of a local path; reusing a stored path is a single comparison.
- SQLite errors, the schema and its migration: statements are exact operations on rows.
- LIKE on texts with NUL characters or on patterns above SQLite's length limit: not modelled.
- The trimming of a search query and the limit of 50 in `SearchMessages`: library call and constant.
- Go's Unicode case mapping and space trimming, HTML parsing and reference resolution: parameters of the link-preview model.
- Unread.GetChats: the empty list after a failed contact or store query and the 0 for a failed unread count are not modelled; the group, contact and avatar lookups are arbitrary answers, one per row.
- File system, D-Bus marshalling, QML layout: no property of their own here.
- The frontend's initial `GetStatus` call: the mirror starts at `disconnected`, as the field does.
- Database errors in the event handler: a failed save would announce a message that is not stored.
- Liveness of reconnecting and of login: not guaranteed by the code.
- The moment between asking HasSession and taking the reconnect lock: the answer is arbitrary, so one step loses no interleaving.
- Goroutine state of the concurrent parts is modelled on values, one step at a time; memory-level races are not.
- Overflow of the C++ total: the sum over the chat list is unbounded; each summand is an int32.
