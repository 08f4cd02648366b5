# A verified model of the Exchange client's local state

The Exchange connector keeps local copies of what an Exchange server holds and reconciles
them again and again. This project models the parts where that state is hardest to keep
right, and proves what the code promises about them, or exactly when it keeps its promise.

- **Mail folder index** (`camel/camel-exchange-utils.c`): the array of messages, the two hash
  indexes, the unread counter, the queue of unsent edits, the high article number and the
  deleted counter, under refresh, full listing, deletion sync, flag edits, flushing and
  removals. `FolderState.dfy` says what each operation does as a value; `ExchangeFolder.dfy`
  has the objects updated in place and proves each method against it. The invariants and runs
  are in `FolderIndex`, `PendingQueue`, `UnsentEdits`, `UnreadCounter`, `PendingAgreement`,
  `SearchOrder`, `UidOrder`, `ArrivalOrder`, `UserEdits`, `KeptEdits`, `ArticleNumbers`,
  `RefreshCompleteness`, `RefreshLosses`, `NoLostMail` and `FolderRuns`; what each operation
  changes, posts and leaves alone is pinned down in `DeletionSync`, `EditEffects`, `FlushPosts`,
  `FolderEffects` and `ListingEffects`; `SampleRuns` has short runs on which promises fail.
- **Offline journal** (`camel/camel-exchange-journal.c`): several folders with summary, cache
  and queue, and the server they are replayed against. `JournalState.dfy` is the value model,
  `OfflineJournal.dfy` the objects; `JournalProvenance`, `JournalReady`, `JournalReplay`,
  `ReplayTheorem`, `UniformRuns`, `ReplayConverges`, `OfflineDeletion`, `OfflineTexts` and
  `JournalEdits` hold the theorems.
- **Calendar object cache** (`calendar/e-cal-backend-exchange.c`): `CalendarState` and the class
  in `CalendarCache`; what additions, modifications and removals show in `CalendarEdits`, save and
  load in `CalendarRoundTrip` and `CalendarReload`, synchronisation in `CalendarSync`.
- **Address list query compiler** (`addressbook/e-book-backend-gal.c`): `LdapFilter` has filters,
  their printed form, a parser and their meaning; `GalQuery` the compiler; `GalMeaning` and
  `GalTheorem` the proof that compiling preserves meaning.
- **Self-contained algorithms**: the two-pass path mangler (`FolderPaths`), the SMTP envelope
  (`Envelope`), distribution-list reconciliation (`ContactList`), the free/busy decoder
  (`FreeBusy`).

Server replies are arbitrary inputs everywhere. Where a promise turns out not to hold in every
case, the code is kept as it is: a lemma gives an input on which it fails, and another says
for all inputs exactly when it holds (names ending in `Iff`).

Where the repository's own notes and its code differ, the model follows the code:

- `docs/mail` says that the deletion scan goes backwards and stops once the counts match; the
  code lists the whole folder and then drops everything that was not listed.
- `docs/mail` says that opening a folder sends removal notices for messages that are gone; in
  the code that removal is commented out, and only flags and hrefs are updated.
- The end of a calendar pass reports entries as removed, but leaves them in the cache and
  saves them again.

Flag words are sets of bits. A message object is named by its serial number. In the journal a
folder is named by its position and a message's content stands for its text and its flags.
`dafny verify dfyconfig.toml` checks everything.

## Model

| member | source | states |
|---|---|---|
| FolderIndex.AddIndexed | camel/camel-exchange-utils.c:347-364 | registering a message under a new uid keeps index agreement: every message of the array once, under its own uid and no other, and every href entry leading to a message that bears that href |
| FolderIndex.RemoveAtIndexed | camel/camel-exchange-utils.c:366-411 | taking a message out of array, indexes and queue keeps index agreement |
| FolderIndex.ChangeFlagsIndexed | camel/camel-exchange-utils.c:467-484 | a flag change keeps index agreement |
| FolderIndex.RefreshItemIndexed | camel/camel-exchange-utils.c:659-706 | a refreshed row keeps index agreement, also when a new uid arrives on an href already in use |
| FolderIndex.LoadIndexed | camel/camel-exchange-utils.c:2434-2453 | opening a folder from a summary with distinct uids establishes index agreement |
| FolderIndex.MarkListedIndexed | camel/camel-exchange-utils.c:825-845 | adopting the listed read states keeps index agreement |
| FolderIndex.RemoveUnknownIndexed | camel/camel-exchange-utils.c:850-857 | dropping the messages that were not listed keeps index agreement |
| FolderIndex.GetContentsIndexed | camel/camel-exchange-utils.c:1020-1198 | a full listing, with its re-sort and its late registration of hrefs, keeps index agreement |
| FolderIndex.SetFlagsIndexed | camel/camel-exchange-utils.c:2722-2795 | a user's flag edit keeps index agreement |
| FolderIndex.FlushIndexed | camel/camel-exchange-utils.c:1467-1697 | a run of the flusher keeps index agreement |
| FolderIndex.StepIndexed | camel/camel-exchange-utils.c:366-1697 | whatever happens to an open folder, with arbitrary server answers, keeps index agreement |
| RefreshCompleteness.RefreshItemExact | camel/camel-exchange-utils.c:659-706 | after a refreshed row its uid finds one message with the row's flags (the old message, or a new one with a fresh serial number), the high article number has been raised to the row's, and every other message that is left is unchanged |
| UidOrder.StrLeTotal | camel/camel-exchange-utils.c:969-978 | uids compare as byte strings, and only equal uids tie |
| UidOrder.SortMessagesSorted | camel/camel-exchange-utils.c:1020 | the full listing works on exactly the local messages, in uid order |
| UidOrder.SortItemsSorted | camel/camel-exchange-utils.c:671-672 | a refresh records exactly its usable rows, in uid order |
| SearchOrder.EveryMessageFoundIff | camel/camel-exchange-utils.c:311-333 | the binary search finds every message of an array exactly when the array is in serial order |
| SearchOrder.MessageRemovedExact | camel/camel-exchange-utils.c:413-436 | whatever the array order, reporting an href gone removes exactly the message registered under it or changes nothing; in serial order the removal always happens |
| SearchOrder.ListingHidesMessage | camel/camel-exchange-utils.c:1020 | a folder just loaded whose full listing loses serial order, so that a registered message is no longer found and its removal is skipped |
| ArrivalOrder.SortKeepsOrderIff | camel/camel-exchange-utils.c:1020 | re-sorting by uid keeps an array in serial order exactly when its uids already sort in order of arrival |
| ArrivalOrder.ListingKeepsOrderIff | camel/camel-exchange-utils.c:1020-1198 | a full listing keeps the array in serial order exactly when the uids were in order of arrival |
| ArrivalOrder.StepArrives | docs/mail:95-126 | as long as every refreshed row is known or sorts after all known uids, uids stay in order of arrival, through every event |
| FolderRuns.RunInOrderIff | camel/camel-exchange-utils.c:1020 | every state of a run is in serial order if and only if each full listing of the run meets uids in order of arrival |
| FolderRuns.RunRemoves | camel/camel-exchange-utils.c:413-436 | over every run whose full listings meet uids in order of arrival the array stays in serial order and a reported href is always removed from the index |
| FolderRuns.LoadedRunRemoves | docs/mail:95-126 | from a summary in uid order on, as long as new messages arrive with later uids and with full listings wherever they happen, a reported href is always removed |
| PendingQueue.ChangeFlagsQueued | camel/camel-exchange-utils.c:467-484 | a flag change keeps the queue orderly: no message twice, and every queued message is in the array with something to send |
| PendingQueue.RemoveAtQueued | camel/camel-exchange-utils.c:387-401 | a removed message leaves the queue, and the rest of the queue stays orderly |
| PendingQueue.RefreshItemQueued | camel/camel-exchange-utils.c:659-706 | a refreshed row keeps the queue orderly |
| PendingQueue.SetFlagsQueued | camel/camel-exchange-utils.c:2741-2790 | a user's flag edit keeps the queue orderly, including edits of SEEN that are dropped on the way |
| PendingQueue.SetTagQueuedIff | camel/camel-exchange-utils.c:2797-2824 | a tag change keeps the queue orderly exactly when something is pending on the message afterwards: always for a value, not when it removes the last tag of a message without flag edits |
| PendingQueue.FlushLoopOutcome | camel/camel-exchange-utils.c:1480-1605 | the flush loop with its swap-with-last removals and its step back flushes exactly the queued messages from its position on, once each, and leaves queued exactly those with bits left to send |
| PendingQueue.FlushVisitsOnce | camel/camel-exchange-utils.c:1480-1605 | each queued message is visited exactly once, and found as it was when the flush began |
| PendingQueue.FlushLogMembers | camel/camel-exchange-utils.c:1480-1605 | the visited messages are exactly the queued ones |
| PendingQueue.ReadMarksPosted | camel/camel-exchange-utils.c:1488-1500 | read and unread marks are posted exactly when some queued message has such an edit |
| FlushPosts.MarksPosted | camel/camel-exchange-utils.c:1488-1500 | each way, an href is marked read or unread as many times as queued messages there have such an edit |
| FlushPosts.RequestsPosted | camel/camel-exchange-utils.c:1505-1600 | every property update (answered with both its booleans, importance with its direction, follow-up with its tags) is posted exactly as many times as there are queued messages at that href whose pending edits ask for it |
| FlushPosts.FlushedExact | camel/camel-exchange-utils.c:1488-1600 | sending clears the pending bits that were posted and the tags, stores the read state that was sent, and leaves everything else of the message |
| FlushPosts.EditPosted | camel/camel-exchange-utils.c:2722-2795 | a user's importance or answered edit is posted next with the value asked for, a change of the read state as a mark in that direction |
| FlushPosts.TagPosted | camel/camel-exchange-utils.c:2797-2824 | a tag set by the user is posted next, with the message's other tags |
| PendingQueue.DeletionsPosted | camel/camel-exchange-utils.c:1631-1640 | the hrefs posted for deletion after the loop are exactly those of the messages that were queued with a deletion when the flush began |
| PendingQueue.FlushQueued | camel/camel-exchange-utils.c:1467-1697 | after a run of the flusher what is still queued still has something to send |
| UnsentEdits.FlushForgetsIff | camel/camel-exchange-utils.c:1602-1692 | a queued message that is still there after a run of the flusher has had its edits sent, and what could not be sent is pending but no longer queued exactly when no read-state edit was queued anywhere |
| SampleRuns.RefusedDeletionForgotten | camel/camel-exchange-utils.c:1689-1692 | a run from loading on after which a deletion the server did not confirm is still marked but not queued |
| SampleRuns.TagRemovalDangles | camel/camel-exchange-utils.c:2797-2824 | a run in which removing an absent tag queues a message that stays queued after its removal from the folder |
| UnreadCounter.ChangeFlagsCounted | camel/camel-exchange-utils.c:467-484 | a flag change moves the unread counter by what it moves the number of messages without SEEN |
| UnreadCounter.RemoveAtCounted | camel/camel-exchange-utils.c:381-384 | a removal moves the unread counter with the number of messages without SEEN |
| UnreadCounter.RefreshItemCounted | camel/camel-exchange-utils.c:659-706 | a refreshed row moves the unread counter with the number of messages without SEEN |
| UnreadCounter.SetFlagsCounted | camel/camel-exchange-utils.c:2749-2763 | a user's flag edit moves the unread counter with the number of messages without SEEN |
| UnreadCounter.FlushCounted | camel/camel-exchange-utils.c:1488-1500 | a run of the flusher puts the counter off by the conflicting read edits it meets, opposite conflicts cancelling out |
| UnreadCounter.FlushExactIff | camel/camel-exchange-utils.c:1488-1500 | the flusher leaves a right counter right exactly when the conflicting queued edits cancel out |
| UnreadCounter.ConflictSources | camel/camel-exchange-utils.c:467-484 | for one message: a user's edit leaves a conflict exactly if there was one and the edit does not ask for the other read state, sending leaves none, and a flag change from the server leaves one exactly when it contradicts the pending read edit |
| PendingAgreement.StepAgrees | camel/camel-exchange-utils.c:467-1697 | if the rows, the listing or the read states an event brings contradict no pending read edit of the messages they are about, every pending read edit still agrees with the stored read state afterwards |
| FolderRuns.RunAgrees | camel/camel-exchange-utils.c:467-1697 | over every run in which the server contradicts no pending read edit, all pending read edits agree with the stored read states and no flush meets a conflict |
| FolderRuns.RunGood | camel/camel-exchange-utils.c:366-1697 | over every admissible run, with arbitrary server answers, index agreement and an orderly queue hold and the counter is off by exactly the accumulated drift |
| FolderRuns.RunQueuedIff | camel/camel-exchange-utils.c:366-2824 | the queue of unsent edits stays orderly through a run if and only if every tag removal of the run leaves something pending on its message |
| FolderRuns.UnreadCountExact | camel/camel-exchange-utils.c:367-484 | from opening the folder on, in every admissible run in which what the server sends contradicts no pending read edit, `unread_count` is the number of messages without SEEN |
| FolderRuns.UnreadCountConflictFree | camel/camel-exchange-utils.c:367-484 | the same for every admissible run whose flushes meet no conflicting edit |
| FolderRuns.RunCountIff | camel/camel-exchange-utils.c:1488-1500 | in every admissible run the counter ends up right exactly when the drift of its flushes cancels out modulo 2^32 |
| SampleRuns.ConflictMiscounts | camel/camel-exchange-utils.c:473-480 | a run from loading on, read by the user, unread by the server, flushed, after which the counter is 1 and no message is unread |
| DeletionSync.DeletionPassExact | camel/camel-exchange-utils.c:819-857 | a deletion pass leaves exactly the messages whose href entry was listed, in their old order, with SEEN as last listed and every other bit kept, and raises `deleted_count` by the number dropped |
| DeletionSync.SyncDeletionsExact | camel/camel-exchange-utils.c:792-857 | if fewer messages are visible than known, or the deletion counter is neither the server's nor 0, exactly the messages whose href entry was listed are left, with SEEN as listed, and the counter rises by the number dropped; otherwise nothing changes, except that a counter of 0 takes the server's value |
| DeletionSync.ReconnectSettles | camel/camel-exchange-utils.c:1348-1350 | right after reconnecting, a sync that meets the same counters changes nothing |
| FolderEffects.RemovalsExact | camel/camel-exchange-utils.c:413-436 | in serial order, confirmed deletions take exactly the messages registered under their hrefs out of array and index, and each is counted |
| FolderEffects.FlushExact | camel/camel-exchange-utils.c:1602-1697 | in serial order, a run of the flusher removes exactly the confirmed messages if a deletion but no read-state edit was queued, and none otherwise |
| FolderEffects.LoadExact | camel/camel-exchange-utils.c:2434-2453 | a loaded folder holds the saved rows as its messages, in order, and nothing else |
| FolderEffects.RefreshItemHref | camel/camel-exchange-utils.c:659-706 | a row with a new uid registers its message under its href and counts the one that was there as deleted; a row of a known uid leaves hrefs and counter alone |
| FolderEffects.RefreshFlags | camel/camel-exchange-utils.c:659-706 | after a refresh every known message with a row has the flags of its last row, and the others are unchanged |
| EditEffects.SetFlagsExact | camel/camel-exchange-utils.c:2722-2795 | which pending bits, which stored flags and which queue entry a user's edit leaves, bit by bit, and that no other message changes |
| EditEffects.SetTagExact | camel/camel-exchange-utils.c:2797-2824 | a tag edit stores the value under its name, or removes the name, queues the message and changes no other |
| KeptEdits.ServerKeepsEdits | camel/camel-exchange-utils.c:366-1198 | nothing the server reports touches a pending edit; queued messages stay queued unless they are gone |
| ListingEffects.ListingExact | camel/camel-exchange-utils.c:1020-1198 | each usable row is matched with the first message of its uid behind the one before, up to the first row without one; every message ends with the flags of the last row that landed on it and its own href or that of the first; the high article number is the highest matched one, or just below one of the rows left over |
| ListingEffects.ListingRegisters | camel/camel-exchange-utils.c:1111-1118 | a full listing unregisters no href and registers every one it gives to a message |
| UserEdits.EditAppliesIff | camel/camel-exchange-utils.c:2749-2792 | an edit changes the effective flags exactly as asked unless it sets SEEN to the stored value while a contradicting edit is pending |
| UserEdits.DroppedEdit | camel/camel-exchange-utils.c:2749-2792 | the dropped edit of SEEN in that case |
| UserEdits.LastWriterWinsIff | camel/camel-exchange-utils.c:2722-2795 | after any run of edits of any messages, with anything pending before, a bit of a message's effective flags is what the last edit covering it asked for, if and only if the bit is not SEEN or no contradicting edit of SEEN was pending or no edit covers SEEN or some edit asks for other than the stored read state |
| UserEdits.LastWriterWins | camel/camel-exchange-utils.c:2722-2795 | in particular every bit goes to its last writer when no contradicting edit was pending |
| SampleRuns.LastEditDropped | camel/camel-exchange-utils.c:2749-2792 | a run from loading on, marked read by the user, unread by the server, unread by the user, after which the user still sees the message as read |
| UserEdits.FlushKeepsEffectiveIff | camel/camel-exchange-utils.c:1488-1560 | sending a message's edits keeps its effective flags exactly when the stored flags already agree with the sent answered and importance edits |
| SampleRuns.SendingHidesAnswer | camel/camel-exchange-utils.c:1488-1560 | a run from loading on in which an answered mark shows until it has been sent and is gone afterwards |
| JournalEdits.JournalledEditsWinIff | camel/camel-exchange-journal.c:207-227 | replaying the flag entries of a journal in queue order, on an online message with anything pending, gives each bit to its last journalled writer if and only if the bit is not SEEN or not all its entries, of which there is one, ask for the stored read state under a contradicting pending edit |
| JournalEdits.JournalledEditsWin | camel/camel-exchange-journal.c:207-227 | in particular each bit goes to its last journalled writer when no contradicting edit was pending |
| JournalEdits.JournalledLast | camel/camel-exchange-journal.c:595-618 | a flag change journalled now is the last word on exactly the bits it covers |
| OfflineTexts.AppendShown | camel/camel-exchange-journal.c:434-501 | an offline append shows the message's text under one new uid, caches it, queues the append and changes nothing else |
| OfflineTexts.AppendsReplayed | camel/camel-exchange-journal.c:57-111 | after any run of offline appends, replayed in any order with nothing refused, each server folder holds every text as often as before plus the times it was appended there |
| OfflineTexts.TransferShown | camel/camel-exchange-journal.c:544-593 | a transferred message shows its text under one new uid in the other folder, and a moved one leaves its own |
| OfflineTexts.TransfersShown | camel/camel-exchange-journal.c:544-593 | copying or moving cached messages to another folder adds their texts there, takes moved messages and no others away, and changes nothing else |
| OfflineTexts.DeleteShown | camel/camel-exchange-journal.c:595-618 | a journalled flag change hides the message exactly if it sets DELETED, and is queued last with its mask and value |
| ArticleNumbers.FullListingMissesIff | camel/camel-exchange-utils.c:1026-1198 | after a full listing every usable row is known by uid or lies above the new high article number, unless the row that uses up the local copy is unknown and ties with the highest number matched before it |
| ArticleNumbers.FullListingMissesNothing | camel/camel-exchange-utils.c:1026-1198 | with distinct article numbers a full listing misses nothing |
| ArticleNumbers.TieLosesRow | camel/camel-exchange-utils.c:1119-1158 | a folder just loaded and a listing of two rows with the same article number, one of which is afterwards neither known nor above the high article number |
| ArticleNumbers.ZeroArticleWraps | camel/camel-exchange-utils.c:1140-1158 | a trailing row numbered 0 wraps the high article number around to 2^32 - 1 |
| ArticleNumbers.FlagsLandIff | camel/camel-exchange-utils.c:1085-1111 | once `d` local messages were passed over, the row for position `m + d` changes its own message exactly when `d` is 0 or `m + 2 * d` is inside the array |
| ArticleNumbers.FlagsLandOnAnother | camel/camel-exchange-utils.c:1085-1111 | two local messages of which the server lists the second, as read: the full listing marks the first one read |
| RefreshCompleteness.ListingDescribes | camel/camel-exchange-utils.c:1047-1132 | when the listing names the local messages with none passed over, each message gets the flags of its own row, an href if it had none, and nothing else changes |
| RefreshLosses.RefreshKnowsIff | camel/camel-exchange-utils.c:659-706 | after a refresh exactly those uids are known that were known before or have a row, but for those whose message some row evicts (its own uid new, its href registered to that message, the search finding it) with no later row naming them |
| RefreshLosses.RefreshLosesIff | camel/camel-exchange-utils.c:659-706 | from a state in serial order, for rows with distinct uids and hrefs, a uid is missing after the refresh exactly when a row that is new by then sits at the href its message is registered under and no later row names it: a condition on the starting state and the rows |
| RefreshLosses.OpenThenRefreshKnowsIff | camel/camel-exchange-utils.c:1026-1198 | after a full listing and a refresh on the same rows a listed uid is known if and only if no row of the refresh evicts its message without a later row naming it |
| RefreshLosses.OpenThenRefreshLosesIff | camel/camel-exchange-utils.c:1026-1198 | the same read off the listed state and the rows alone, when the listing left the array in serial order |
| RefreshCompleteness.OpenThenRefreshKnowsAll | camel/camel-exchange-utils.c:1026-1198 | in particular every listed uid is known when no row to be fetched sits at the href of another listed message |
| RefreshLosses.ReusedHrefEvicts | camel/camel-exchange-utils.c:673-700 | a loaded folder and a listing with distinct uids, hrefs and article numbers after whose full listing and refresh a listed message is not known |
| NoLostMail.NoLostMailOverRuns | camel/camel-exchange-utils.c:534-706 | over runs with growing article numbers, with messages delivered, renumbered, altered and withdrawn and searches failing in between, in every reachable state every server row at or below `high_article_num` has been known to the client |
| NoLostMail.LoadedMailboxSound | camel/camel-exchange-utils.c:2434-2453 | such runs may start from any loaded folder whose saved high article number is not ahead of its uids |
| NoLostMail.RefreshForgetsIff | camel/camel-exchange-utils.c:673-700 | a refreshed row makes the client forget another uid exactly when its own uid is new, its href is registered to that other message and the search finds it |
| ExchangeFolders.ExchangeFolder.LoadRows | camel/camel-exchange-utils.c:2434-2453 | the objects: fills array, indexes and counter from the summary as the value model does; the new state is proved equal to the value model's, and the invariant is kept |
| ExchangeFolders.ExchangeFolder.FindMessageIndex | camel/camel-exchange-utils.c:311-333 | the objects: the binary search loop returns what the search function returns, on any array; the new state is proved equal to the value model's, and the invariant is kept |
| ExchangeFolders.ExchangeFolder.AppendMessage | camel/camel-exchange-utils.c:347-364 | the objects: adds a new object to array, indexes and counter; the new state is proved equal to the value model's, and the invariant is kept |
| ExchangeFolders.ExchangeFolder.Dequeue | camel/camel-exchange-utils.c:387-401 | the objects: drops a message from the queue by moving the last entry into its place; the new state is proved equal to the value model's, and the invariant is kept |
| ExchangeFolders.ExchangeFolder.MessageRemoveAtIndex | camel/camel-exchange-utils.c:366-411 | the objects: removes exactly that message from array, indexes, counter and queue; the new state is proved equal to the value model's, and the invariant is kept |
| ExchangeFolders.ExchangeFolder.MessageRemoved | camel/camel-exchange-utils.c:413-436 | the objects: removes the message registered under the href if the search finds it; the new state is proved equal to the value model's, and the invariant is kept |
| ExchangeFolders.ExchangeFolder.MessagesRemoved | camel/camel-exchange-utils.c:2600-2614 | the objects: counts each confirmed href and removes its message; the new state is proved equal to the value model's, and the invariant is kept |
| ExchangeFolders.ExchangeFolder.ChangeFlags | camel/camel-exchange-utils.c:467-484 | the objects: stores the flags and moves the counter; the new state is proved equal to the value model's, and the invariant is kept |
| ExchangeFolders.ExchangeFolder.RefreshRow | camel/camel-exchange-utils.c:659-706 | the objects: one row of the refresh; the new state is proved equal to the value model's, and the invariant is kept |
| ExchangeFolders.ExchangeFolder.RefreshFolder | camel/camel-exchange-utils.c:534-706 | the objects: the refresh over all usable rows in uid order; the new state is proved equal to the value model's, and the invariant is kept |
| ExchangeFolders.ExchangeFolder.MarkListing | camel/camel-exchange-utils.c:819-845 | the objects: adopts the listed read states and collects the listed messages; the new state is proved equal to the value model's, and the invariant is kept |
| ExchangeFolders.ExchangeFolder.RemoveUnlisted | camel/camel-exchange-utils.c:850-857 | the objects: drops the messages not collected, scanning from the end; the new state is proved equal to the value model's, and the invariant is kept |
| ExchangeFolders.ExchangeFolder.SyncDeletions | camel/camel-exchange-utils.c:743-860 | the objects: the deletion sync with its two early returns; the new state is proved equal to the value model's, and the invariant is kept |
| ExchangeFolders.ExchangeFolder.SetMessageFlags | camel/camel-exchange-utils.c:2722-2795 | the objects: a user's edit of the flags, with the immediate change of SEEN; the new state is proved equal to the value model's, and the invariant is kept |
| ExchangeFolders.ExchangeFolder.SetMessageTag | camel/camel-exchange-utils.c:2797-2824 | the objects: a user's edit of a tag; the new state is proved equal to the value model's, and the invariant is kept |
| ExchangeFolders.ExchangeFolder.SortByUid | camel/camel-exchange-utils.c:1020 | the objects: re-sorts the array of objects by uid; the new state is proved equal to the value model's, and the invariant is kept |
| ExchangeFolders.ExchangeFolder.LandRow | camel/camel-exchange-utils.c:1085-1111 | the objects: applies a matched row to the message found for its position; the new state is proved equal to the value model's, and the invariant is kept |
| ExchangeFolders.ExchangeFolder.GetFolderContentsOnline | camel/camel-exchange-utils.c:1020-1198 | the objects: the full listing: matching loop, trailing rows and the high article number; the new state is proved equal to the value model's, and the invariant is kept |
| ExchangeFolders.ExchangeFolder.SendQueue | camel/camel-exchange-utils.c:1480-1605 | the objects: the flush loop over the queue of objects, with the requests and marks it posts; the new state is proved equal to the value model's, and the invariant is kept |
| ExchangeFolders.ExchangeFolder.DeletedHrefs | camel/camel-exchange-utils.c:1631-1640 | the objects: collects the hrefs of the queued messages marked deleted, in queue order; the new state is proved equal to the value model's, and the invariant is kept |
| ExchangeFolders.ExchangeFolder.ProcessFlags | camel/camel-exchange-utils.c:1467-1697 | the objects: the whole flusher, with its early return and the hrefs it posts for deletion, on any queue without repeats whose messages are in the array; the new state is proved equal to the value model's, and the invariant is kept |
| ExchangeFolders.ExchangeFolder.DropFrom | camel/camel-exchange-utils.c:1047-1084 | the copy with everything before the first message of that uid removed, entry by entry |
| JournalProvenance.ProvenanceOverRuns | camel/camel-exchange-journal.c:503-593 | in every state reachable offline each temporary uid has an entry that put it there, and the real source of every message is an offline append or an original with a server uid, found in one hop |
| JournalProvenance.TransferProvenance | camel/camel-exchange-journal.c:544-593 | a transfer keeps one-hop provenance, between two folders or within one |
| JournalProvenance.DeleteProvenance | camel/camel-exchange-journal.c:595-618 | a journalled deletion keeps one-hop provenance |
| JournalReady.RunReady | camel/camel-exchange-journal.c:476-593 | every run of offline appends, copies and moves from a state in sync keeps what replaying relies on: each queued transfer names a server original with the shown content, and a server message no longer shown is being moved by some entry |
| JournalReplay.ReplayOutcome | camel/camel-exchange-journal.c:57-205 | what each server folder and each cache holds after the first `k` jobs of any replay order, uid by uid |
| ReplayTheorem.ReplayFaithfulIff | camel/camel-exchange-journal.c:57-205 | for every reachable offline state and every order of replay with no append or transfer refused: the server folders end up with exactly the messages the summaries showed if and only if no transfer is replayed after a move of the same original and no queued move names an original still shown |
| UniformRuns.UniformRunsReplay | camel/camel-exchange-journal.c:544-593 | after any run of appends with only moves, or with only copies, replaying in any order with nothing refused empties the queues and leaves every server folder with exactly the messages its offline summary showed |
| UniformRuns.FolderOrderSchedule | camel/camel-exchange-journal.c:57-205 | replaying journal after journal, in any folder order, is such an order of replay |
| UniformRuns.CopyThenMove | camel/camel-exchange-journal.c:577-585 | a copy followed by a move of the copy, which no replay order reproduces |
| ReplayConverges.ReplayConvergesIff | camel/camel-exchange-journal.c:57-227 | after any replay, refusals included, the queues are empty and every folder shows what its server folder holds if and only if the server refused nothing and no transfer was replayed after a move of the same original |
| UniformRuns.MoveBeforeCopy | camel/camel-exchange-journal.c:113-205 | a run of offline moves and copies and an order of replay with nothing refused after which folders and server folders differ |
| OfflineDeletion.DeletedNeverPosted | camel/camel-exchange-journal.c:72-110 | in any order of replay and with any answers, the entry of a message whose text was deleted offline changes nothing on the server and leaves the queue |
| OfflineDeletion.DeletionNotPosted | camel/camel-exchange-journal.c:595-618 | after a message is deleted offline no order of replay posts it through the entry that put it there |
| OfflineDeletion.StaleDeletionStays | camel/camel-exchange-journal.c:207-227 | in any order of replay and with any answers, a flag entry for a temporary uid stays in its queue |
| OfflineDeletion.DeletedMoveStays | camel/camel-exchange-journal.c:113-227 | a message moved offline and deleted in its new folder: after the replay the original is on the server in the folder that no longer shows it, and the deletion is still queued |
| OfflineJournal.OfflineFolder.UpdateCache | camel/camel-exchange-journal.c:404-474 | a new temporary uid in cache and summary |
| OfflineJournal.OfflineFolder.RemoveMessage | camel/camel-exchange-folder.c:919-950 | takes the message out of summary and cache |
| OfflineJournal.OfflineFolder.Append | camel/camel-exchange-journal.c:476-501 | journals an offline append |
| OfflineJournal.OfflineFolder.Delete | camel/camel-exchange-journal.c:595-618 | journals a flag change, hiding a message marked deleted |
| OfflineJournal.OfflineFolder.ScanQueue | camel/camel-exchange-journal.c:514-537 | one pass over the queue finds the last entry that put the message there and the links to drop |
| OfflineJournal.OfflineFolder.DropLinks | camel/camel-exchange-journal.c:539-540 | deleting the collected links one by one leaves exactly the entries of other messages, in order |
| OfflineJournal.OfflineFolder.FindRealSource | camel/camel-exchange-journal.c:503-542 | the real source of a message, and the queue without its entries when it moves on |
| OfflineJournal.OfflineStore.Transfer | camel/camel-exchange-journal.c:544-593 | a copy or move between two folders, or within one, changes both exactly as the value model says |
| OfflineJournal.OfflineStore.TransferMessages | camel/camel-exchange-folder.c:660-690 | messages are transferred one by one up to the first one that is not cached; between two folders it succeeds exactly when every named message the folder has is cached |
| OfflineJournal.OfflineStore.PlayAppend | camel/camel-exchange-journal.c:57-111 | replaying an append, or keeping the entry when the server refuses |
| OfflineJournal.OfflineStore.PlayTransfer | camel/camel-exchange-journal.c:113-205 | replaying a transfer, or failing without any change when the server refuses or the original is gone |
| OfflineJournal.OfflineStore.PlayEntry | camel/camel-exchange-journal.c:57-227 | replaying one entry of any kind; it leaves the queue exactly when it could be played, so a refused append or transfer and a flag change for a message the online folder does not know stay |
| OfflineJournal.OfflineStore.ReplayJournal | camel/camel-exchange-journal.c:57-227 | replaying one folder's journal entry by entry, each accepted or refused |
| CalendarRoundTrip.SaveLoadIff | calendar/e-cal-backend-exchange.c:298-318 | for any order in which the hash table writes the entries, loading the saved file shows for every uid and recurrence id what the cache showed, up to the times at which a whole object has occurrences, if and only if no master carries a recurrence id |
| CalendarReload.SaveLoadVisibleIff | calendar/e-cal-backend-exchange.c:298-318 | occurrences included, it shows exactly what the cache showed if and only if every master is clean: no recurrence id, and no occurrence at a detached instance of its own |
| CalendarReload.ReloadAnswers | calendar/e-cal-backend-exchange.c:1037-1127 | what `get_object` answers for a whole object after saving and loading: the master without the occurrences at its instances, and the instances in reverse order, the first of each recurrence id |
| CalendarReload.SaveLoadRepliesIff | calendar/e-cal-backend-exchange.c:1037-1127 | every `get_object` request is answered exactly as before if and only if every master is clean and has at most one detached instance |
| CalendarReload.RestartAnswers | calendar/e-cal-backend-exchange.c:253-318 | over every run without a whole-object modification by an occurrence, a restart answers every request for a recurrence id as before, and a request for a whole object with its instances relisted, not finding it only if it was not found before |
| CalendarReload.RestartKeepsAll | calendar/e-cal-backend-exchange.c:253-318 | if moreover every master was put in place without an occurrence at a detached instance of its entry, a restart changes nothing that is shown |
| CalendarReload.RestartLosesTask | calendar/e-cal-backend-exchange-tasks.c:1404-1412 | a run that changes all of a recurring task with an occurrence of it, after which a restart loses the object |
| CalendarRoundTrip.RoundTripOverRuns | calendar/e-cal-backend-exchange.c:253-272 | over every run without a whole-object modification by an occurrence, a restart shows for every uid and recurrence id what was shown, up to the times at which a whole object has occurrences |
| CalendarRoundTrip.StrayMasterSource | calendar/e-cal-backend-exchange.c:912-917 | a master with a recurrence id comes only from modifying a whole object, or discarding a detached instance, with an occurrence of it |
| CalendarRoundTrip.LoadShows | calendar/e-cal-backend-exchange.c:253-272 | loading shows for each uid what the file's components of that uid say, first instance and first master winning |
| CalendarRoundTrip.StepKept | calendar/e-cal-backend-exchange.c:788-934 | every operation keeps entries non-empty and made of components of their own uid, instances having a recurrence id |
| CalendarEdits.GetObjectExact | calendar/e-cal-backend-exchange.c:1037-1127 | a request for a recurrence id is answered with the first detached instance there, else the master's occurrence, else not at all; one for the whole object with the master and all instances in order |
| CalendarEdits.ModifyOccurrenceShown | calendar/e-cal-backend-exchange.c:889-932 | after one occurrence is modified exactly the modified component is shown there, also over an earlier detached instance; other recurrence ids and other uids show what they showed |
| CalendarEdits.ModifyWholeShown | calendar/e-cal-backend-exchange.c:889-932 | after the whole object is modified with nothing discarded, it is the component, and the detached instances are as they were |
| CalendarEdits.ModifyDiscardingShown | calendar/e-cal-backend-exchange.c:856-917 | after it is modified with an occurrence, discarding the detached instance, the component without that occurrence is the whole object, and at the recurrence id only a second instance can still show |
| CalendarEdits.ModifyUnknown | calendar/e-cal-backend-exchange.c:889-932 | a component without a uid or of an unknown object modifies nothing |
| CalendarEdits.AddShown | calendar/e-cal-backend-exchange.c:788-854 | an accepted component is shown, as the whole object or as the detached instance if there was none at its recurrence id, and all else stays |
| CalendarEdits.AddRefused | calendar/e-cal-backend-exchange.c:788-854 | a second master, or a component without a uid, changes nothing |
| CalendarEdits.RemoveShown | calendar/e-cal-backend-exchange.c:941-953 | a removed object is not found under any recurrence id, and the others are as before |
| CalendarEdits.AskShown | calendar/e-cal-backend-exchange.c:702-734 | asking drops an object asked for as a whole that is older than the server's, takes over a given href otherwise, and changes nothing else |
| CalendarSync.LoadIsRun | calendar/e-cal-backend-exchange.c:253-272 | loading a file is a run that adds its components one by one, each with the time carried to it |
| CalendarSync.UpToDateIff | calendar/e-cal-backend-exchange.c:702-734 | over every run from an empty cache, asking for a whole object answers that it is there exactly when a pass is on, the object exists and no time it was added with since its creation is older than the server's |
| CalendarSync.StepDated | calendar/e-cal-backend-exchange.c:824-827 | every event keeps an entry's modification time the least it was given since it was created |
| CalendarSync.PassReports | calendar/e-cal-backend-exchange.c:736-774 | a pass reports exactly the entries there at its start that it never asked about and that have a master at its end, and none of these was removed meanwhile |
| CalendarSync.PassReportsMissing | calendar/e-cal-backend-exchange.c:736-774 | when a pass touches only what it asked about it reports exactly the unasked entries that had a master at its start; they stay, and the next pass that does not meet them reports them again |
| CalendarCache.CacheEntry.FindInstance | calendar/e-cal-backend-exchange.c:839-848 | the first instance at a recurrence id, walking the list |
| CalendarCache.CacheEntry.AddComponent | calendar/e-cal-backend-exchange.c:819-850 | adds a master or an instance to an entry |
| CalendarCache.CacheEntry.DiscardDetachedInstance | calendar/e-cal-backend-exchange.c:856-876 | drops the first instance at a recurrence id and the master's occurrence |
| CalendarCache.CacheEntry.ModifyComponent | calendar/e-cal-backend-exchange.c:912-926 | replaces the master or prepends an instance |
| CalendarCache.CacheEntry.WriteTo | calendar/e-cal-backend-exchange.c:298-318 | appends the master and the instances to the file |
| CalendarCache.ExchangeCalendar.AddObject | calendar/e-cal-backend-exchange.c:788-854 | refuses a second master or a component without a uid, else adds to the entry, new if need be; other entries unchanged |
| CalendarCache.ExchangeCalendar.ModifyObject | calendar/e-cal-backend-exchange.c:889-932 | modifies the entry of the component's uid, or fails without a change |
| CalendarCache.ExchangeCalendar.RemoveObject | calendar/e-cal-backend-exchange.c:941-953 | removes the entry |
| CalendarCache.ExchangeCalendar.CacheSyncStart | calendar/e-cal-backend-exchange.c:619-636 | a pass starts with every entry unseen |
| CalendarCache.ExchangeCalendar.InCache | calendar/e-cal-backend-exchange.c:702-734 | marks the entry seen, drops it when stale, else updates its href |
| CalendarCache.ExchangeCalendar.CacheSyncEnd | calendar/e-cal-backend-exchange.c:736-774 | reports the unseen entries with a master and ends the pass, keeping all entries |
| CalendarCache.ExchangeCalendar.GetObject | calendar/e-cal-backend-exchange.c:1037-1127 | the occurrence, the object alone or with its instances, or nothing |
| CalendarCache.ExchangeCalendar.Save | calendar/e-cal-backend-exchange.c:298-318 | writes entry by entry in the order of the hash table |
| CalendarCache.ExchangeCalendar.LoadCache | calendar/e-cal-backend-exchange.c:253-272 | adds the file's components one by one, carrying the last modification time on |
| LdapFilter.ParsePrint | addressbook/e-book-backend-gal.c:1037-1048 | a printed filter parses back to the filter, whatever follows it, in the grammar of RFC 2254 section 4 with the empty lists of RFC 4526 section 2 |
| LdapFilter.ReadPieceBack | addressbook/e-book-backend-gal.c:983-1012 | escaped text unescapes to the original and ends where it should |
| LdapFilter.RawPieceIff | addressbook/e-book-backend-gal.c:1160-1173 | text put in unescaped reads back as itself exactly when it has no special character |
| GalQuery.Rfc2254Escape | addressbook/e-book-backend-gal.c:983-1012 | the two loops: a buffer of exactly the size first measured, holding the escaped text |
| GalQuery.EscapedLength | addressbook/e-book-backend-gal.c:988-995 | the first loop measures the escaped text |
| GalQuery.CombineLoop | addressbook/e-book-backend-gal.c:1016-1086 | `and` and `or`: the first settling argument decides, else the strings are joined |
| GalMeaning.ContainsPrints | addressbook/e-book-backend-gal.c:1128-1186 | `contains` with a plain text prints the filter it asks for, or its constant, or is refused |
| GalMeaning.IsPrints | addressbook/e-book-backend-gal.c:1188-1267 | `is` and `beginswith` print the filter they ask for, values escaped, or the constant, or are refused |
| GalMeaning.SplitEscaped | addressbook/e-book-backend-gal.c:1234-1246 | splitting the escaped name at its first space splits the name itself |
| GalTheorem.CompilePrints | addressbook/e-book-backend-gal.c:1016-1267 | a compiled string is the printed form of a well-formed filter, for every query whose bare strings spell filters and whose `contains` look for no special character |
| GalTheorem.CompileMeans | addressbook/e-book-backend-gal.c:1016-1111 | for every directory entry and whatever unsupported parts might mean, a string's filter holds exactly when the query does, and a constant is the query's constant |
| GalTheorem.BuildQueryMeans | addressbook/e-book-backend-gal.c:1311-1371 | the search string parses to a filter that holds exactly for visible entries with a mail address, recent ones if asked, that satisfy the query; no search means a constant query; refusal means an undefined one, a number, or one that asks only for a mail address |
| GalTheorem.SupportedCompiles | addressbook/e-book-backend-gal.c:1016-1267 | a query all of whose comparisons are supported, with `not` taking one query, compiles to a filter string or a constant |
| GalTheorem.RefusedIff | addressbook/e-book-backend-gal.c:1311-1371 | such a query is refused if and only if its filter asks for nothing but a mail address |
| GalTheorem.SpellsIff | addressbook/e-book-backend-gal.c:1037-1048 | the bare strings taken as queries are exactly the printed forms of well-formed filters |
| GalTheorem.BareStringUnreadable | addressbook/e-book-backend-gal.c:1036-1043 | a bare string under `and` that spells no filter, which makes the whole search string unreadable |
| GalTheorem.ContainsIff | addressbook/e-book-backend-gal.c:1163-1184 | `contains` sends the filter it should exactly when its text has no special character |
| GalTheorem.AsteriskAsksForAll | addressbook/e-book-backend-gal.c:1160-1164 | asked for entries containing an asterisk, the program asks for every entry with a nickname |
| GalTheorem.PrintInjective | addressbook/e-book-backend-gal.c:1037-1048 | two filters that print alike are the same |
| FolderPaths.PathToPhysical | camel/camel-exchange-store.c:170-244 | the second pass stays inside the buffer the first one sized, ends it with a zero, writes prefix, slash and the names joined by "/subfolders/", and leaves unused exactly the surplus slashes |
| FolderPaths.CountAdded | camel/camel-exchange-store.c:196-212 | the first pass adds eleven for each separator |
| FolderPaths.WriteMangled | camel/camel-exchange-store.c:222-241 | the second pass appends the translated path |
| FolderPaths.MangledLength | camel/camel-exchange-store.c:185-212 | the translated path is as long as the collapsed one and what the separators add, and the path is longer than the collapsed one by its surplus slashes |
| FolderPaths.MangledInverts | camel/camel-exchange-store.c:222-241 | a translated path reads back as the path with each run of slashes made one |
| FolderPaths.PhysicalSameIff | camel/camel-exchange-store.c:170-244 | two paths have the same physical path if and only if they are the same once leading slashes are dropped and runs of slashes made one |
| FolderPaths.PhysicalInjective | camel/camel-exchange-store.c:170-244 | in particular paths without leading or doubled slashes can be told apart by their physical paths |
| FolderPaths.PhysicalReads | camel/camel-exchange-store.c:170-244 | a physical path lies under the prefix, and what follows reads back as the path without leading slashes and with each run of slashes made one |
| Envelope.StripEnvelope | camel/camel-exchange-folder.c:555-578 | the stripping loop terminates and removes exactly the leading envelope lines and the zero it appended |
| Envelope.WriteSubmitted | camel/camel-exchange-utils.c:3228-3248 | writes the envelope lines, the Received line and the message |
| Envelope.EnvelopeRoundTrip | camel/camel-exchange-folder.c:555-578 | for senders and recipients without newlines, stripping removes exactly the envelope, and returns the content if and only if that does not itself start like an envelope line and hold a newline |
| Envelope.BlankLineLost | camel/camel-exchange-folder.c:555-578 | a content that opens with an empty line and comes back without it |
| Envelope.SubmittedRoundTrip | camel/camel-exchange-utils.c:3228-3248 | what the client submits comes back whole, headed by its Received line |
| Envelope.EnvelopeReads | camel/camel-exchange-utils.c:3228-3236 | read line by line, an envelope gives back the sender, all the recipients in order, and the content |
| Envelope.SubmittedReads | camel/camel-exchange-utils.c:3228-3248 | what the client submits is addressed by the sender to exactly the recipients, in order |
| ContactList.MergeContactLists | addressbook/e-book-backend-exchange.c:1622-1705 | the hash, the loop over the local members and the removals post the commands that give the merged list |
| ContactList.AddMissing | addressbook/e-book-backend-exchange.c:1647-1690 | the loop over the local members, ending at the first add command that fails |
| ContactList.RemoveMembers | addressbook/e-book-backend-exchange.c:1598-1620 | posts a delete command for every member left in the hash that has an id; those the server refuses stay |
| ContactList.MergeIff | addressbook/e-book-backend-exchange.c:1622-1705 | when every add command succeeds the server's emails become exactly the local ones, repeated or not, if and only if every unlisted member is the last with its email and has an id whose deletion is not refused |
| ContactList.DuplicateStays | addressbook/e-book-backend-exchange.c:1641-1645 | two server members with one email, which stays although the edited list is empty |
| ContactList.MergedEmails | addressbook/e-book-backend-exchange.c:1622-1705 | whatever commands fail, what remains are the emails handled before the first failed add command and those of members that cannot be or are not deleted |
| FreeBusy.SetFreebusyInfo | calendar/e-cal-backend-exchange-calendar.c:2394-2418 | decodes the string into periods and ends at start plus thirty minutes times its length |
| FreeBusy.RunEnd | calendar/e-cal-backend-exchange-calendar.c:2407-2410 | the inner loop stops at the end of the run |
| FreeBusy.CreateFreebusyProp | calendar/e-cal-backend-exchange-calendar.c:2360-2391 | statuses outside 0 to 3 give no period |
| FreeBusy.SpansRun | calendar/e-cal-backend-exchange-calendar.c:2394-2418 | spans are contiguous, of whole half hours, maximal and end on time |
| FreeBusy.ExpandSpans | calendar/e-cal-backend-exchange-calendar.c:2394-2418 | expanding the spans gives the string back |
| FreeBusy.SpansExpand | calendar/e-cal-backend-exchange-calendar.c:2394-2418 | decoding an expansion gives its maximal runs back |
| FreeBusy.SlotCovered | calendar/e-cal-backend-exchange-calendar.c:2360-2418 | each moment of a half hour is covered by a period exactly when its digit stands for something, with the status it stands for |
| FreeBusy.SlotStatuses | calendar/e-cal-backend-exchange-calendar.c:2360-2418 | half hour by half hour, 0 stands for free, 1 for tentative, 2 for busy, 3 for out of office, and nothing else for any of them |
| FreeBusy.PeriodsApart | calendar/e-cal-backend-exchange-calendar.c:2394-2418 | periods lie within the time of the string, one after the other |

## Left out

- WebDAV, LDAP and OWA transport, authentication, HTTP status mapping and result iterators; server replies are inputs.
- Camel's summary, tags and change notices sent upward, and folder permission checks.
- Threads: each locked section is one atomic step. The listing thread started on reopening can interleave with edits in the program; here it does not.
- The serial counter's wrap-around after 2^32 messages in one open folder; serial numbers are unbounded here.
- A missing href where the flusher takes the part after its last slash: the program would crash there, the model posts no name.
- The order `qsort` gives to rows or messages with equal uids; the model uses one such order.
- The table of messages missing from a listing (`mfld_get_folder_online_sync_updates`): its removal is commented out, so it has no effect.
- The online copy and move of messages beyond the removals they report; its count of confirmed hrefs nobody asked for is not modelled.
- ReplayConverges.ReplayConvergesIff: a transfer whose original is gone from its server folder is taken to fail and change nothing; the program may instead get an empty list of new uids and read past its end. Like ReplayFaithfulIff it covers runs without offline deletions.
- OfflineJournal.OfflineStore.PlayTransfer: the same assumption about a transfer whose original is gone.
- OfflineJournal.OfflineStore.PlayEntry: what a played flag entry does to the online folder is not part of the journal's state; JournalEdits has it. The online folder is taken to know exactly the uids on its server folder.
- OfflineJournal.OfflineStore.ReplayJournal: the same for whole journals.
- ReplayTheorem.ReplayFaithfulIff: covers offline appends, copies and moves. Runs with offline deletions are covered entry by entry in OfflineDeletion, where DeletedMoveStays is a run that is not replayed faithfully.
- Cache write errors while journalling; the cache is always available here.
- libical, time zones and MIME: components are abstract, a master stands for the set of recurrence ids it has an occurrence at, and modification times are integers ordered as the program orders its timestamps.
- `get_object` called with an empty recurrence id string, which answers like none but also for entries without a master.
- Removing a calendar object that the running pass has not met yet: the program keeps a pointer to freed memory there.
- A calendar file whose first component has no modification time: the program reads an uninitialised value, the model takes it as a parameter.
- The table of contact fields and their LDAP attributes; it is a parameter.
- GalTheorem.CompilePrints: leaves out queries with a bare string, at the top or under `and`, `or` or `not`, that is not the printed form of a filter, which the compiler pastes all the same (BareStringUnreadable), and `contains` with special characters, for which ContainsIff says that the filter is never the right one. Numbers and calls as operands are covered.
- GalTheorem.CompileMeans: leaves out the same queries.
- GalTheorem.BuildQueryMeans: leaves out the same queries.
- Decoding of vCard addresses; local members are given by their email.
- `postprocess_tree`, the folder tree pruning.
- User interface, configuration, account setup, attachments and the Berkeley DB cache.
