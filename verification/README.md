# vivi-mail: a model of its crash-tolerant protocols and derived structures

vivi-mail keeps a local archive of remote mail. This project models the parts of
it that must stay right when a process dies between two writes, when the server
changes underneath, or when a derived structure must agree with what it was
derived from. `dafny verify dfyconfig.toml` checks everything.

The durable protocols are given twice. A step relation lists the atomic effects
in any interleaving with crashes, and lemmas about every run of it state the
safety properties. A class beside it holds the state that the program changes
in place, and its methods are proved against the steps or against a function of
the old state. SQL tables are finite maps with the keys, UNIQUE constraints and
cascades of the schema; a hash is a constructor over what is hashed; mail
parsing, the policy's verdict and the embedding provider are parameters. A method
whose disk, connection or process can fail takes `uninterrupted`: without it it
may stop at any write, and with it its contract says exactly when it succeeds.

| module | what it models |
|---|---|
| `SendQueue` | the queue of sends: intent before transport, torn files, the dedupe key |
| `Storage`, `Sync`, `Decimal` | ingest under content-derived ids, the comparison of a listing with the archive, the keys of both |
| `Convergence`, `RunSync` | when repeated syncs of a folder end, on any valid archive and on those that runs reach |
| `ImapServer`, `RemoteSafety` | the server's promises, mutation plans, and the whole system of listings, downloads, mutations and crashes |
| `FlagMutations`, `MovedMail` | the flags of a mail on both sides of a flag mutation, and what a half-recorded or concurrent move does |
| `Download` | the pool of workers sharing the missing messages |
| `ProtonEvents`, `ProtonCache` | the event cursor, repeated application of one event, and the cache that fixes what is fetched |
| `Threads`, `Ordering` | the thread walk and the order of a thread |
| `IndexRebuild`, `Links` | the email index, its links and search documents |
| `AgentPoll` | the poll lock and the ledger of claimed messages |
| `Chunker`, `MessageChunks`, `Embeddings` | cutting a message into texts, and the store of their vectors |
| `Handles`, `ResetGuard`, `Percent` | short handles and their cache, the guard before a cache is deleted, percent encoding |

The server side follows section 2.3.1.1 of RFC 3501 (UIDs and UIDVALIDITY),
section 2.1 of RFC 4315 (UID EXPUNGE) and section 3.2 of RFC 6851 (UID MOVE);
the encoding follows sections 2.1 and 2.3 of RFC 3986.

## What the proofs found

The code is modelled as it is. Each promise that fails comes with a lemma about
a failing run or input and one that says exactly when it holds.

- Sync files a bound row under its role, UIDVALIDITY and UID, without account and
  mailbox. A move that dies between the two statements of `update_message_state`
  leaves a row under its new role and its old binding, and that row can then hide
  a mail of the other mailbox, which is never downloaded
  (`Convergence.AnotherMailboxHidesAMessage`), or make a stored one missing again
  (`Convergence.AnotherMailboxUnsettlesAMessage`). A full sync converges exactly
  when no such row of another size is there (`Convergence.SyncConverges`, and
  `RunSync.RunSyncConvergesIff` for every run; `MovedMail.HalfRecordedMoveUnsettles`
  is a run in which it does not); a mail is skipped unstored exactly when one of
  the same size is (`Convergence.SkippedUnstoredIff`). Repeated limited syncs of
  mail without Message-IDs end under the same condition, and otherwise never
  (`RunSync.RunRoundsEndIff`).
- A flag mutation writes back the catalog row as it was when prepared, so a star
  that a refresh copied meanwhile is lost although it is on the server
  (`FlagMutations.ReconcileMayLoseAStar`); both sides agree exactly when the
  other flag did not change in between (`FlagMutations.AgreeAfterReconcileIff`).
  It writes back role and binding too, so a move recorded meanwhile is undone in
  the archive (`MovedMail.RecordedMoveMayBeUndone`); they stay exactly when nobody
  changed them since (`MovedMail.FlagMutationUndoesMoveIff`).
- The documentation of queued sends (README.md:308-313) covers an item stuck as
  `sending`. A second item with the same message is then recorded as executed
  although nothing was ever transmitted
  (`SendQueue.ExecutedItemMayNeverHaveBeenTransmitted`). Recorded states stand
  for a transmission exactly when no crash separates the intent of a key not yet
  transmitted from its transport call (`SendQueue.ClaimsBackedIffIntentsKept`).
- A rebuild of the email index prunes by walking index rows, so a search
  document whose index row went by cascade survives every later rebuild
  (`IndexRebuild.ExpungeLeavesOrphan`); all orphans go exactly when each still
  has its index row (`IndexRebuild.OrphanDocsSurviveIffUnindexed`).
- A rebuild of the embeddings given a handle filter prunes what it did not
  select; it leaves the account complete exactly when it selected everything
  (`Embeddings.EmptyFilterPrunesAll`,
  `Embeddings.FilteredRebuildIsFullIffAllSelected`). Only the public function
  accepts both: `sync --embed` filters and does not rebuild
  (src/sync_command.rs:202-209), `index embeddings` rebuilds and does not filter
  (src/index_runner.rs:30-38).
- Storing a listed message fails when its UID is already bound under another
  content, as after a change from headers to full bodies
  (`Convergence.HeadersThenBodyIsRefused`); a batch is stored exactly when none
  of it is so claimed (`Sync.StoreSucceedsIffUnclaimed`). A message with neither
  a Message-ID nor a UIDVALIDITY is downloaded by every sync
  (`Convergence.ConvergesIffNoClash`).
- A download worker does not compare UIDVALIDITY and can store another mail's
  bytes under a listed UID (`RemoteSafety.WorkerMayStoreAnotherMail`). It fetches
  the listed mail exactly when the mailbox has the listing's UIDVALIDITY at the
  fetch (`RemoteSafety.WorkerFetchesListedMailIff`,
  `RemoteSafety.BindingHoldsItsMailIff`); otherwise the binding is stale before it
  is made, so no plan ever acts on it.
- An event that both deletes and updates a message leaves it live
  (`ProtonEvents.UpdateThenDeleteLeavesLive`).
- Nothing refreshes the cache of fetched messages, so a message marked read on the
  server after it was first fetched stays unread here with every event applied
  (`ProtonCache.FlagChangeMayBeLost`). Its row shows what the server said at the
  last event that updates it exactly when no other message was cached before
  (`ProtonCache.UpdateIsCurrentIff`). A cache file cut short while it is written
  holds the cursor for ever (`ProtonCache.TornCacheFileStops`).
- Agent claims are inserted one by one before Codex starts, so a poll that fails
  or dies in between leaves messages that no later poll runs
  (`AgentPoll.ClaimedMailMayNeverRun`, `AgentPoll.LostClaimNeverRuns`); every claim
  has its run exactly when no poll stops there
  (`AgentPoll.ClaimsBackedIffNoPollStops`).
- A confirmed custom reset may contain the home directory two levels down
  (`ResetGuard.CustomResetMayContainHome`); `ResetGuard.CustomResetExact` says
  exactly what is accepted.
- Normalizing a Message-ID twice gives what normalizing it once gives exactly
  when no blank stands just inside its angle brackets
  (`Links.BlankAfterBracketIsKept`, `Links.NormalFormIsStableIff`).
- `percent_decode` ends the program on a text in which some percent sign is
  followed by one byte and the first byte of a longer character, and only then
  (`Percent.PercentDecode`, `Percent.SliceMayCutACharacter`). It takes a sign
  for a digit (`Percent.SignedTripleDecodes`). Neither touches the round trip.

## Model

| member | source | states |
|---|---|---|
| `SendQueue.EachItemIsSentAtMostOnce` | src/queue_runner.rs:175-222 | in every run of queue commands, crashes and torn writes, no item is handed to the transport twice |
| `SendQueue.ResendOnlyAfterFailureOrDrop` | src/queue.rs:94-120 | every transport call is for an item never sent before, and every earlier item sent under the same key is by then recorded failed or dropped |
| `SendQueue.TornFileStopsAllSends` | src/queue.rs:159-187 | once one queue file does not parse, no queued send reaches the transport in the rest of the run |
| `SendQueue.SentItemsNeverReturnToPending` | src/queue_runner.rs:138-173 | an item that was transmitted is never again a pending item, so no later run takes it up |
| `SendQueue.ClaimsBackedIffIntentsKept` | src/queue_runner.rs:175-180 | over a whole run, an executed or sending record under a key means the key was transmitted, if and only if no crash separates the intent of an untransmitted key from the call |
| `SendQueue.ExecutedMeansTransmitted` | src/queue_runner.rs:196-213 | the half of that a user relies on: with no such crash every executed item's message went out |
| `SendQueue.ExecutedItemMayNeverHaveBeenTransmitted` | src/queue_runner.rs:199-205 | a run in which an item ends executed and the transport was never called |
| `SendQueue.InvStep` | src/queue_runner.rs:105-222 | the invariant every step keeps: records of transport calls, the item in flight, and what its key has superseded |
| `SendQueue.SameKeyIff` | src/queue.rs:103-109 | two messages get one dedupe key if and only if they have one Message-ID, or neither has one and they are the same bytes |
| `SendQueue.AttemptedIffCarried` | src/queue.rs:111-120 | a key was attempted if and only if another file records the very message as sending or executed; failed and dropped ones do not count |
| `SendQueue.Queue.WriteItem` | src/queue.rs:196-208 | the new file, an untouched file or a torn one, whatever interrupts the write, and nothing else changes |
| `SendQueue.Queue.Load` | src/queue.rs:139-145 | the parsed item exactly when the file is there and parses |
| `SendQueue.Queue.List` | src/queue.rs:159-187 | exactly the items asked for, each once, none after a younger one and those of one time by id, or an error if any file is torn |
| `SendQueue.Queue.Enqueue` | src/queue.rs:126-133 | adds one pending item and leaves every other file alone |
| `SendQueue.Queue.QueueDrop` | src/queue_runner.rs:105-113 | marks any parseable item dropped, an executed one included, and sends nothing |
| `SendQueue.Queue.HistoryDecides` | src/queue.rs:113-120 | searching the listed items answers whether the key was attempted on disk by another item |
| `SendQueue.Queue.RunQueuedSend` | src/queue_runner.rs:180-222 | transmits at most once, only if authorized, readable, with all files parsing and no other file carrying the message, under its key; success is recorded as executed under that key, and without a transmission only if another file carries that Message-ID, or those bytes; uninterrupted it completes if and only if it is authorized and readable, all files parse, and another file carries the message or the transport accepts it |
| `SendQueue.Queue.IntendAndSend` | src/queue_runner.rs:206-222 | the transport is called only after the intent is durable |
| `SendQueue.Queue.SendPath` | src/draft_runner.rs:49-72 | one transport call unless the message cannot be prepared; executed is recorded only if everything succeeded, otherwise failed |
| `SendQueue.Queue.RunOneQueuedItem` | src/queue_runner.rs:138-173 | an item not pending is never run: a sending one is skipped, any other is an error; one item adds at most one transport call; uninterrupted it completes exactly for a sending item or one that can be carried out |
| `SendQueue.Queue.QueueRun` | src/queue_runner.rs:115-136 | runs the named items or all pending ones, touches no other file, and does nothing with a torn file and `--all`; completed, each of them was pending and is executed, or was being sent before and is as it was; uninterrupted it stops only at an item that cannot be carried out |
| `SendQueue.Queue.RunInTurn` | src/queue_runner.rs:132-135 | up to the first failure the items in turn, with the same meaning of completion for any list, duplicates included |
| `Storage.Store.IngestMessage` | src/storage/ingest.rs:16-48 | commits blob, metadata, message and binding together or leaves only the blob file; an id claimed elsewhere refuses the whole ingest; uninterrupted it succeeds exactly when the remote is not claimed elsewhere |
| `Storage.SameIdIff` | src/storage.rs:240-259 | two ingests without a hint get one id if and only if account, role and content agree, and mailbox, UIDVALIDITY and UID or without a remote the seed hint |
| `Storage.IngestTwice` | src/storage/ingest.rs:16-57 | what was ingested is admitted again, and ingesting it again changes nothing |
| `Storage.RefusedIffClaimed` | src/storage/schema.rs:65-89 | an ingest is refused if and only if its remote is bound under an id of other content or another role |
| `Storage.IngestedExactly` | src/storage/ingest.rs:118-186 | an admitted ingest makes one active row with the bytes, role and state asked for, bound to its remote, keeps the account of a row it replaces, and leaves every other row, binding, blob row and file alone |
| `Storage.IngestKeepsValid` | src/storage/schema.rs:37-89 | ingest keeps the tables valid: foreign keys, one id per remote, and ids that agree with the content and binding they hash |
| `Storage.RebindKeepsValid` | src/catalog/local.rs:89-140 | rebinding an id to its own remote, or clearing it, keeps the tables valid |
| `Storage.LocalStateKeepsValid` | src/catalog/local.rs:53-87 | changing role and flags keeps them valid |
| `Storage.RemoveKeepsValid` | src/catalog/local.rs:142-162 | removing a message keeps them valid because its binding goes with it |
| `Storage.LocalStateExactly` | src/catalog/local.rs:53-87 | the first statement sets role and flags of one active row of the account and nothing else, or is an error exactly without such a row |
| `Storage.ReboundExactly` | src/catalog/local.rs:89-140 | the second sets or clears one binding and nothing else, or fails exactly without the row or on a remote another id claims |
| `Storage.RemovedExactly` | src/catalog/local.rs:142-162 | removing takes the row and its binding, deleted or not, leaves every other row and binding, and is an error exactly without such a row of the account |
| `Storage.Store.UpdateMessageState` | src/catalog/local.rs:38-51 | both statements, neither, or only the first, and an error whenever not both; uninterrupted exactly when both can be carried out |
| `Sync.FindMissing` | src/imap/sync.rs:131-171 | the loop returns exactly the listed messages not covered by Message-ID or by size key, in order |
| `Sync.UncoveredInOrder` | src/imap/sync.rs:131-171 | what is missing stands in the order of the listing, once for each position that is not covered |
| `Sync.TruncatedIsPrefix` | src/imap/sync.rs:234-238 | a limit keeps the first so many of the missing messages, or all if there are fewer, and no limit keeps all |
| `Convergence.CoveredInEveryOrderIff` | src/storage/query.rs:173-227 | a listed message is covered whatever order the archive lists its rows in, if and only if its Message-ID is indexed or rows of its UIDVALIDITY and UID exist and all have the listed size |
| `Convergence.CoveredInSomeOrderIff` | src/storage/query.rs:173-197 | and in some order if and only if it is indexed or one active row of the role, bound under its UIDVALIDITY and UID, has a blob file of the listed size |
| `Convergence.SkippedOnlyOnARowOfItsUid` | src/imap/sync.rs:150-168 | a message the Message-ID index does not know is skipped only on an active row filed under the same UIDVALIDITY and UID with a blob of the listed size, of whatever mailbox |
| `Convergence.SkippedUnstoredIff` | src/imap/sync.rs:158-168 | a message no own row holds is skipped under some order if and only if a row of another account or mailbox shares its UIDVALIDITY, UID and size |
| `Convergence.AnotherMailboxHidesAMessage` | src/catalog/local.rs:38-51 | after a half-done move, a mail of the other mailbox is skipped and no row holds it |
| `Convergence.AnotherMailboxUnsettlesAMessage` | src/catalog/local.rs:38-51 | after a half-done move, a mail of the other mailbox is stored and can be missing again |
| `Convergence.ConvergesIffNoClash` | src/imap/sync.rs:131-171 | on any valid archive: after storing at least what was missing, the next comparison misses exactly the messages with neither Message-ID nor UIDVALIDITY, in every order, if and only if no row clashes with a listed message |
| `Convergence.SyncConverges` | src/imap/sync.rs:131-171 | when bindings hold their own remotes' bodies: if and only if no row of another account or mailbox does |
| `RunSync.RunArchiveIsFaithful` | src/storage/ingest.rs:152-186 | in full mode, at any point of any run, every row bound to a mail of a current listing holds that mail's bytes |
| `RunSync.RunSyncConvergesIff` | src/imap/sync.rs:131-171 | at any point of any run a full sync of the mailbox as it is converges if and only if no row of the role is bound to another mailbox's mail of the same UIDVALIDITY and UID and another size |
| `RunSync.CalmIffNoStray` | src/storage/ingest.rs:152-186 | in every run, the archive is one from which rounds end if and only if no row of the role is bound to another mailbox's mail of the same UIDVALIDITY and UID and another size |
| `RunSync.RunRoundsEnd` | src/imap/sync.rs:196-238 | without such a row, rounds under a limit N from any point of any run leave nothing missing after ceil(n/N) of them |
| `RunSync.RunRoundsEndIff` | src/imap/sync.rs:196-238 | for mail without Message-IDs, after that many rounds nothing is missing in any order if and only if there was no such row |
| `MovedMail.HalfRecordedMoveUnsettles` | src/catalog/local.rs:38-51 | a run that records a move by half, after which a full sync of the target folder does not converge |
| `Convergence.StaysCoveredIff` | src/imap/sync.rs:196-238 | what a round found covered or stored stays covered if and only if no row clashes with any of it |
| `Convergence.LimitedRoundShrinks` | src/imap/sync.rs:196-238 | then a round under a limit leaves only messages it did not download, so the list shrinks by at least the batch |
| `Convergence.RoundStoresAtMost` | src/imap/sync.rs:173-238 | a sync under a limit adds at most that many rows, and removes none |
| `Convergence.RoundsEnd` | src/imap/sync.rs:173-238 | from an archive without rows of a wrong size, refresh, comparison and limited download repeated k times leave at most n - kN of n missing messages, and nothing after ceil(n/N) rounds |
| `Convergence.LastingRowNeverEnds` | src/imap/sync.rs:173-238 | a row of a wrong size survives every round, and a message without a Message-ID that it speaks for is missing again under some order for ever |
| `Convergence.RefreshKeepsFaithful` | src/imap/sync.rs:240-263 | a refresh neither makes nor breaks that bindings hold their own remotes' bodies |
| `Convergence.HeadersThenBodyIsRefused` | src/storage/ingest.rs:152-186 | a message stored from its headers refuses its whole body under the same UID |
| `Convergence.StoreAllExtends` | src/imap/sync.rs:265-300 | after a batch the Message-ID index has exactly the ids it had and those stored, and the rows of a UIDVALIDITY and UID are exactly those before and the one stored, contents unchanged |
| `Convergence.StoreAllSizes` | src/storage.rs:224-238 | a batch leaves a blob of each content it stores, damaged before or not, and every other file as it was |
| `Convergence.CoveredAfterIff` | src/imap/sync.rs:131-171 | a message covered before a batch or stored by it is covered from then on, whatever the order, if and only if no row of its UIDVALIDITY and UID has another size |
| `Sync.StoreSucceedsIffUnclaimed` | src/storage/ingest.rs:152-186 | a batch is stored if and only if no message of it is bound under another id |
| `Sync.RefreshIsExact` | src/imap/sync.rs:240-263 | active rows bound to a listed message get its flags, all others keep theirs, and bindings of the mailbox become stale exactly under another UIDVALIDITY than that of the first message listed with one |
| `Sync.RefreshKeepsMissing` | src/imap/sync.rs:240-263 | refreshing flags and staleness first changes neither validity nor what is missing |
| `Sync.StoreNext` | src/imap/sync.rs:265-300 | stores one listed message under its content-derived id, or fails and leaves at most its blob file |
| `Sync.StoreBatch` | src/imap/sync/download.rs:155-180 | the ids of the messages in order and the archive of storing them in turn; a failure leaves exactly the messages before the failing one stored, and at most its blob file |
| `Sync.StoreAllHolds` | src/imap/sync.rs:265-300 | after a batch every message of it has an active row with its bytes, the folder's role and the listed flags, bound to where it was listed |
| `Sync.SyncFolder` | src/imap/sync.rs:173-232 | the refreshed archive with the missing messages stored under the ids returned, or with a prefix of them stored; the ids are those of the first min(limit, number missing) missing messages, or of all without a limit, and each of those has its row; uninterrupted it succeeds if and only if no remote of them is claimed |
| `Decimal.RemoteSizeKeyInjective` | src/storage.rs:370-372 | the size key determines role, UIDVALIDITY and UID, for every role, decimal printing included |
| `Decimal.GeneratedIdIsNoSizeKey` | src/storage/query.rs:178-188 | the key of an unbound row never equals a size key |
| `Decimal.RemoteSeedInjective` | src/storage.rs:240-251 | the hashed seed determines account, role, content, mailbox, UIDVALIDITY and UID, as long as names hold no NUL |
| `ImapServer.PlanMove` | src/imap/mutate.rs:83-103 | refused exactly when the server has neither MOVE nor UIDPLUS; a plan uses only commands the server has |
| `ImapServer.ExecTouchesOnly` | src/imap/mutate.rs:189-281 | no command of any plan changes a mail other than the one it names, and anything new is a copy of that mail |
| `ImapServer.ExecFailsIff` | src/imap/mutate.rs:189-281 | a command fails only for want of the selected mailbox or of its destination |
| `ImapServer.MoveLosesNothing` | src/imap/mutate.rs:237-281 | after a failure, or a lost acknowledgement, at any command the mail is in the source or the destination in every state |
| `ImapServer.MoveTakesNothingElse` | src/imap/mutate.rs:237-281 | no other UID leaves any mailbox during a move, even if it already carries \Deleted |
| `ImapServer.CompletedMoveMoves` | src/imap/mutate.rs:237-281 | a move carried out in full takes the mail out of the source and leaves a copy in the destination |
| `ImapServer.CompletedFlagSets` | src/imap/mutate.rs:202-217 | a flag mutation carried out sets or clears its one flag on the mail and leaves content and other flags |
| `ImapServer.CompletedExpunge` | src/imap/mutate.rs:218-222 | a hard expunge carried out takes the one mail if it already carries \Deleted, and changes nothing otherwise |
| `FlagMutations.AgreeAfterReconcileIff` | src/mutation_command.rs:228-251 | in every run, a flag mutation prepared in agreement, executed and reconciled leaves archive and server in agreement if and only if its flag has not changed on the server since the command, nor the other flag since it was prepared |
| `FlagMutations.ReconcileMayLoseAStar` | src/mutation_command.rs:232-243 | a run in which reconciliation overwrites a star that a refresh had copied |
| `MovedMail.FlagMutationUndoesMoveIff` | src/mutation_command.rs:228-251 | in every run, reconciling a flag mutation writes back the role and binding it was prepared with, and leaves them as they are if and only if nobody changed them since |
| `MovedMail.RecordedMoveMayBeUndone` | src/mutation_command.rs:236-243 | a run in which a recorded move is undone in the archive by a flag mutation prepared before it |
| `ImapServer.PresentBetween` | src/imap/mutate.rs:283-295 | under a server that keeps its promises a mail present at both ends of a stretch was present throughout |
| `ImapServer.Session.ExecutePlan` | src/imap/mutate.rs:172-187 | with a different UIDVALIDITY or no mailbox nothing changes; otherwise some prefix of the plan's commands was executed, all of them on success; uninterrupted it succeeds exactly if mailbox, UIDVALIDITY and every command do |
| `ImapServer.Session.ExecuteSelected` | src/imap/mutate.rs:189-235 | a prefix of the plan's commands in order, all of them on success |
| `ImapServer.Session.ExecuteMove` | src/imap/mutate.rs:237-281 | the same for both ways of moving, each command only after the one before it was acknowledged |
| `RemoteSafety.StepKeepsInv` | src/imap/mutate.rs:172-187 | the system invariant is kept by server changes, listings, fetches, ingests, mutations and half-done reconciliation |
| `RemoteSafety.StepKeepsArchive` | src/storage/schema.rs:37-89 | every step, half-done reconciliation and failed ingests included, keeps the tables valid and every row's blob file intact |
| `RemoteSafety.RunsKeepInv` | src/imap/mutate.rs:172-187 | so every state of every run has the invariant and a valid archive |
| `RemoteSafety.RunRespects` | src/imap/mutate.rs:189-281 | the plans of a run never make the server break what it promises |
| `RemoteSafety.CurrentBindingsAreTrue` | src/storage/ingest.rs:152-186 | a binding under the current UIDVALIDITY was stored from that very mail, and its id's content is the bytes fetched; no binding names a future UIDVALIDITY |
| `RemoteSafety.CommandActsOnTheStoredMail` | src/imap/mutate.rs:172-187 | at any point of any run, a plan's command has an effect only if its UID names the mail its message id was stored from, whose header, or header and text, are that id's content |
| `RemoteSafety.CommandTouchesOneMail` | src/imap/mutate.rs:189-281 | and then it changes that one mail, whatever else happened in the run; anything added is a copy of it |
| `RemoteSafety.StaleBindingsNeverAct` | src/imap/mutate.rs:283-295 | once the mailbox has a newer UIDVALIDITY a stored binding can never be selected or act again |
| `RemoteSafety.WorkerMayStoreAnotherMail` | src/imap/sync/download.rs:97-120 | a run in which a worker stores another mail's bytes under a listed UID |
| `RemoteSafety.WorkerFetchesListedMailIff` | src/imap/sync/download.rs:97-120 | a worker fetches the listed mail if and only if the mailbox has the listing's UIDVALIDITY when it fetches, and then the bytes are what that place holds |
| `RemoteSafety.BindingHoldsItsMailIff` | src/storage/ingest.rs:152-186 | what is stored for a binding came from the bound place if and only if that was so at its fetch; otherwise the UIDVALIDITY was already greater |
| `Download.ChunksPartition` | src/imap/sync/download.rs:76-81 | the chunks are the missing list cut in order, each nonempty and within the size, and their number is the ceiling of the quotient |
| `Download.CountMatchesEntries` | src/imap/sync/download.rs:115-119 | `new` is the number of catalog entries in every state of every interleaving |
| `Download.NoChunkRequestedTwice` | src/imap/sync/download.rs:126-137 | no chunk is requested twice by any workers |
| `Download.TakersLast` | src/imap/sync/download.rs:126-137 | a chunk keeps the one worker that took it |
| `Download.FinishedPoolFetchedEverything` | src/imap/sync/download.rs:31-74 | when all workers return without error every missing message was requested, once, and published |
| `Download.FailedWorkerLosesItsChunk` | src/imap/sync/download.rs:91-137 | a run in which a worker takes a chunk, fails, and nobody requests that chunk again |
| `Download.StepKeepsInv` | src/imap/sync/download.rs:91-137 | every taken chunk stays accounted for: with its worker, completed, or lost with a failed worker |
| `Download.Shared.NextChunk` | src/imap/sync/download.rs:126-137 | hands out the chunk under the cursor and advances, or nothing at the end |
| `Download.Shared.Publish` | src/imap/sync/download.rs:115-119 | adds entries and keeps the count in step |
| `ProtonEvents.CursorNamesAppliedPrefix` | src/proton_events.rs:70-90 | under any crashes the durable cursor names a prefix fully applied in order, and re-applying the next event gives its crash-free result |
| `ProtonEvents.CaughtUpEqualsCrashFree` | src/proton_events.rs:40-93 | once the cursor has caught up the rows equal those of the crash-free run |
| `ProtonEvents.OnlyTheNextEventRepeats` | src/proton_events.rs:70-90 | events are begun in order, and a later one only after the cursor passed the earlier |
| `ProtonEvents.CursorNeverGoesBack` | src/proton_events.rs:205-229 | the durable cursor never decreases |
| `ProtonEvents.EventMayRepeat` | src/proton_events.rs:70-90 | a run in which a crash between the writes of an event makes it begin again from its first write |
| `ProtonEvents.CursorMayTear` | src/proton_events.rs:205-229 | a run whose last save is interrupted and leaves a cursor file that does not parse |
| `ProtonEvents.TornCursorStops` | src/proton_events.rs:195-204 | after a torn cursor file no event is applied any more |
| `ProtonEvents.RepeatAbsorbed` | src/proton_sync/events.rs:38-75 | a write of an event made once too often leaves no trace after the whole event |
| `ProtonEvents.EventRow` | src/proton_events.rs:147-177 | the effect of one event on any row: updated ids live with the fetched message, only-deleted ids marked, all others untouched |
| `ProtonEvents.RefreshRow` | src/proton_events.rs:127-146 | a full refresh leaves every listed message live as fetched, and every other row as it was |
| `ProtonEvents.UpdateThenDeleteLeavesLive` | src/proton_events.rs:147-177 | an event that updates a message and then deletes it leaves it live |
| `ProtonEvents.SyncIdsExact` | src/proton_events.rs:147-177 | the ids fetched are exactly those created or updated |
| `ProtonEvents.SyncIdsSorted` | src/proton_events.rs:171-173 | and they are sorted, each once |
| `ProtonEvents.EventSync.FetchEventMessage` | src/proton_sync/events.rs:77-92 | the cached message if there is one, else the server's, which is then cached |
| `ProtonEvents.EventSync.ApplyEvent` | src/proton_events.rs:122-132 | applying an event write by write, from any half-applied state, gives its crash-free result, and stopping early leaves it repeatable |
| `ProtonEvents.EventSync.SyncOne` | src/proton_events.rs:70-86 | the cursor moves past an event only after all of it is applied |
| `ProtonEvents.EventSync.SyncEvents` | src/proton_events.rs:40-93 | run to its end it leaves the crash-free rows on the messages first fetched, whatever earlier runs left half done; uninterrupted it always does, unless the cursor file is torn |
| `ProtonEvents.EventSync.MakeWrite` | src/proton_sync/events.rs:38-62 | a stored message comes from the cache, or once from the server and is then cached |
| `ProtonCache.CachedRunHasFixedMessages` | src/proton_sync/events.rs:77-92 | a run with the cache, whatever the server says at each fetch, is a run with one fixed message per id, the first fetched |
| `ProtonCache.CachedCaughtUpIsCrashFree` | src/proton_events.rs:70-90 | so a cursor that has caught up stands for the crash-free rows on those messages |
| `ProtonCache.CachedMessageStays` | src/proton_sync/events.rs:77-92 | in every run, once a message is cached no later event changes its row to anything else: caught up, it shows what was cached at any earlier time |
| `ProtonCache.UpdateIsCurrentIff` | src/proton_sync/events.rs:38-62 | in every run, the row of an id shows what the server said when the last event to store it was applied if and only if no other message was cached before |
| `ProtonCache.FlagChangeMayBeLost` | src/proton_sync/events.rs:77-92 | a run in which a message marked read after its first fetch stays unread with every event applied |
| `ProtonCache.TornCacheFileStops` | src/proton_sync/cache.rs:36-67 | once a cache file is torn the cursor never passes an event that stores its message |
| `ProtonCache.ConsistentForAnyAnswer` | src/proton_sync/events.rs:77-92 | what one run left is as good for a later one in which the server answers otherwise about what is not cached |
| `Threads.ThreadMessageIds` | src/email_index.rs:176-203 | the walk terminates, reaches only the seed's connected component, and all of it when component and ids are within the limit |
| `Threads.ExpandThreadId` | src/email_index.rs:205-224 | exactly the messages linking to an id are added, and exactly their ids not seen before are queued |
| `Threads.WalkRound` | src/email_index.rs:187-201 | a round keeps the walk's invariant and either sees a new id or shortens the queue |
| `Threads.WalkEnds` | src/email_index.rs:187-203 | an empty queue means the reached messages are the whole component |
| `Threads.MessagesForMessageIds` | src/email_index.rs:226-243 | the indexed messages among the ids, each once, by date and then id |
| `Threads.ThreadMessages` | src/email_index.rs:118-131 | an error exactly for an unindexed seed; otherwise distinct indexed messages reachable from the seed, itself included, none after a younger one and those of one date by id, and within the limit exactly its component |
| `Threads.SameComponent` | src/email_index.rs:245-290 | members of one component have the same component |
| `Threads.ThreadsAreClasses` | src/email_index.rs:118-131 | two within-limit threads are the identical ordered list or have no message in common |
| `Threads.OrderedUnique` | src/email_index.rs:236-242 | a set of messages has only one such ordered list |
| `Ordering.LessIffDiffersFirst` | src/email_index.rs:236-242 | strings are ordered by their first difference, a prefix first |
| `Ordering.BeforeIff` | src/email_index.rs:236-242 | messages are ordered by date, and those of one date by id |
| `IndexRebuild.RebuiltAt` | src/email_index/rebuild.rs:14-65 | the effect of a rebuild on every message: recomputed, kept if unreadable, gone if no longer active, other accounts untouched |
| `IndexRebuild.RebuildRefinesRecomputation` | src/email_index/rebuild.rs:14-65 | without read errors every active entry has the row of its content, exactly the links of its bytes and exactly one search document, its own, and no other message of the account has a row, whatever was there before |
| `IndexRebuild.SecondRebuildReusesAll` | src/email_index/rebuild.rs:67-101 | a second rebuild reuses everything, finds nothing stale and changes no message's index |
| `IndexRebuild.OrphanDocsSurviveIffUnindexed` | src/email_index/rebuild.rs:178-201 | search documents of inactive messages all go if and only if each still had its index row |
| `IndexRebuild.ExpungeLeavesOrphan` | src/email_index/schema.rs:43-59 | deleting an indexed message by cascade leaves a document no later rebuild removes |
| `IndexRebuild.CountIsPageIffIndexed` | src/email_index/search.rs:55-133 | the reported count is the unlimited page size if and only if every counted document has its index row |
| `IndexRebuild.CountIsPageAfterRebuild` | src/email_index/search.rs:55-133 | after an error-free rebuild it is, orphaned documents or not |
| `IndexRebuild.ReusedAre` | src/email_index/rebuild.rs:67-101 | what is counted as reused are the entries whose row was indexed from the same content |
| `IndexRebuild.UnreadableAre` | src/email_index/rebuild.rs:57-60 | and as errors the entries whose blob cannot be read |
| `IndexRebuild.PageHolds` | src/email_index/search.rs:55-133 | a page holds exactly the matching, indexed documents of active messages of the account that pass the filters |
| `IndexRebuild.EmailIndex.Rebuild` | src/email_index/rebuild.rs:14-36 | one transaction: the rebuilt tables or, only when interrupted, none, with scanned = updated + reused and exact reuse, error and stale counts |
| `IndexRebuild.EmailIndex.PruneStale` | src/email_index/rebuild.rs:178-201 | deletes exactly the account's rows without an entry, with links and documents, and counts them |
| `Links.LinksFromRaw` | src/email_index/links.rs:13-29 | each link of the message once, its own id first |
| `Links.LinksAre` | src/email_index/links.rs:13-29 | a message is linked to its own id, and under each of the two kinds to the normal form of every word of that header and to nothing else |
| `Links.MessageIdsFromHeader` | src/email_index/links.rs:45-57 | the normal forms of all words of the header's texts, without those that are empty |
| `Links.NormalFormIs` | src/message.rs:93-103 | the normal form is what stands inside the opening brackets in front and the closing ones behind, and the blanks around those, in lower case |
| `Links.NoNormalForm` | src/message.rs:93-103 | a text without one has nothing inside them |
| `Links.NormalFormIsStableIff` | src/message.rs:93-103 | normalizing twice gives what normalizing once gives if and only if, in the text, no blank follows the opening brackets or precedes the closing ones |
| `Links.BlankAfterBracketIsKept` | src/message.rs:93-103 | "< a>" normalizes to " a", and that to "a" |
| `Links.RebuildReadiesThreads` | src/email_index/rebuild.rs:45-65 | after an error-free rebuild every message's own Message-ID is among its links, as exact threads need |
| `AgentPoll.NextBatch` | src/agent.rs:80-136 | every message of the batch is indexed, unclaimed, in the folder and from the trusted sender; the seed is one of them and no such message is older; within the walk limit the batch is exactly the seed's thread mates among them; no batch only if every such message is claimed |
| `AgentPoll.NextBatchIsTrusted` | src/agent.rs:95-125 | the same of every batch that can be chosen in a run |
| `AgentPoll.ClaimedIds` | src/agent.rs:109-125 | the unclaimed trusted messages of a thread, each once |
| `AgentPoll.StepKeepsInv` | src/agent.rs:318-337 | the invariant every statement of every poller keeps: one holder of the lock, its batch unclaimed up to where it is, runs backed by claims |
| `AgentPoll.LockExcludes` | src/agent.rs:363-387 | at most one poller is past the lock in any interleaving |
| `AgentPoll.NoMessageRunsTwice` | src/agent.rs:318-337 | a message is in at most one batch ever handed to Codex |
| `AgentPoll.ClaimsLast` | src/agent.rs:318-337 | a claim is never removed or moved to another batch |
| `AgentPoll.ClaimsNeverConflict` | src/agent.rs:318-337 | under the lock the ledger's primary key never has to refuse a claim |
| `AgentPoll.CodexRunsOnlyOnFreshClaims` | src/agent.rs:49-78 | every start of Codex in a run is for a batch of mail from the trusted sender in the folder, chosen in an earlier step when none of it was claimed, and claimed in full by then, so the unclaimed set shrinks strictly |
| `AgentPoll.ClaimsBackedIffNoPollStops` | src/agent.rs:318-337 | throughout a run every claim has a run of its batch or a poll still claiming it, if and only if no poll stops between its first claim and Codex |
| `AgentPoll.LostClaimNeverRuns` | src/agent.rs:95-107 | a message claimed for a batch whose poll is gone without a run is never handed to Codex by any later poll |
| `AgentPoll.ClaimedMailMayNeverRun` | src/agent.rs:67-69 | a run in which a poll fails after a claim and gives the lock back |
| `AgentPoll.ClaimedMailCanRun` | src/agent.rs:49-78 | a run in which a poll claims a mail, runs Codex on its batch and gives the lock back |
| `AgentPoll.PollerMayDie` | src/agent.rs:363-387 | a run in which a poller dies while the lock file exists |
| `AgentPoll.DeathHoldsTheLock` | src/agent.rs:363-387 | a poller that dies past the lock stops every later poll |
| `AgentPoll.Mailbox.Poll` | src/agent.rs:49-78 | locked out without effect, or at most one run, on a next batch of mail from the trusted sender in the folder whose messages were unclaimed and are now its own; a dry run claims nothing; nothing to do means every such message is claimed; uninterrupted it gives the lock back, and hands a batch to Codex if there is one |
| `AgentPoll.Mailbox.Claim` | src/agent.rs:318-337 | all of the batch claimed under its id, or stopped part way with earlier claims kept |
| `Chunker.SplitWord` | src/embeddings/chunk.rs:80-96 | the loop cuts a word into pieces of the bound and a shorter last one |
| `Chunker.CutIsFull` | src/embeddings/chunk.rs:80-96 | every piece of a word but the last has exactly 1000 characters, and the last is not empty |
| `Chunker.SplitOversizedConserves` | src/embeddings/chunk.rs:73-78 | the sequence of non-whitespace characters is kept, and every word is within the bound |
| `Chunker.SplitLongText` | src/embeddings/chunk.rs:98-128 | the loop is greedy packing of the words |
| `Chunker.PackedConserves` | src/embeddings/chunk.rs:98-128 | the packed texts of a window hold exactly its words in order |
| `Chunker.PackedIsGreedy` | src/embeddings/chunk.rs:98-128 | the texts of a window join its words in order, and the first word of each next text would not have fitted into the one before |
| `Chunker.JoinUsesBlanks` | src/embeddings/chunk.rs:60-66 | joined words are apart by one blank each and by no other whitespace |
| `Chunker.WindowsConserve` | src/embeddings/chunk.rs:55-71 | 1 + ceil((n - 600) / 525) windows, each next one overlapping by exactly 75 words, and without the overlaps they are the words in order |
| `Chunker.BodyChunks` | src/embeddings/chunk.rs:55-71 | the loop terminates with the packed texts of every window in order |
| `Chunker.ChunksWithinBound` | src/embeddings/chunk.rs:55-128 | every text of every body is at most 1000 characters |
| `Chunker.ChunkingConserves` | src/embeddings/chunk.rs:29-45 | end to end, the texts of each window hold its words, and the windows hold the text's characters other than whitespace |
| `MessageChunks.ChunksForMessage` | src/embeddings/chunk.rs:29-45 | the message-level chunk followed by the chunks of the body |
| `MessageChunks.PushBodyChunks` | src/embeddings/chunk.rs:39-43 | the loop adds one chunk for each text that is not blank, numbered by position |
| `MessageChunks.MessageLevelTextIs` | src/embeddings/chunk.rs:47-53 | the message-level text is the first 1000 characters of the header lines followed by at most 2048 characters of the cut body |
| `MessageChunks.ChunksAreTheBodyTexts` | src/embeddings/chunk.rs:29-53 | the blank test drops nothing: one chunk per body text with gapless ordinals, all within the bound |
| `MessageChunks.SourceIsWellChunked` | src/embeddings/chunk.rs:137-165 | a message's chunks are nonempty, its own, and have distinct ids, whatever was extracted |
| `Embeddings.StoreRowsAt` | src/embeddings/store.rs:279-304 | storing rows sets exactly the rows named, each with its own text and vector |
| `Embeddings.IndexMessageEmbeds` | src/embeddings.rs:203-254 | indexing a message leaves all its chunks with their current texts and a vector, and touches no other message's rows |
| `Embeddings.IndexMessageStores` | src/embeddings.rs:203-254 | the chunks that were not embedded end with the vectors the provider gave for their own texts, all of one nonzero length, and are what is counted as embedded; an unreadable message is counted as an error |
| `Embeddings.IndexMessageFailsIff` | src/embeddings.rs:203-254 | indexing a message fails if and only if chunks are pending and the provider does not answer their texts with as many vectors, all of one nonzero length |
| `Embeddings.SecondRunIsIdle` | src/embeddings/store.rs:98-110 | an incremental run repeated with no change embeds nothing and leaves the store as it is |
| `Embeddings.StageExact` | src/embeddings.rs:203-254 | a rebuild stages exactly the current chunks, and counts no error exactly when every message was read |
| `Embeddings.RebuildReplacesAccount` | src/embeddings/store.rs:55-78 | an unlimited error-free rebuild leaves exactly the current chunks of the account, all with vectors, and other accounts alone |
| `Embeddings.RebuildStores` | src/embeddings.rs:203-254 | every rebuild that succeeds leaves the chunks it read with the vectors given for their texts, all of one nonzero length |
| `Embeddings.RebuildSucceedsIff` | src/embeddings.rs:132-178 | a rebuild succeeds if and only if the provider answers for every readable message with as many vectors as it has chunks, all of one nonzero length |
| `Embeddings.PartialRebuildOnlyAdds` | src/embeddings.rs:163-178 | a limited rebuild, or one that could not read some message, sets the rows of the chunks it read and leaves every other row of every account: it removes nothing |
| `Embeddings.FilteredRebuildIsFullIffAllSelected` | src/embeddings.rs:132-201 | with a handle filter that is so if and only if the filter selected every message |
| `Embeddings.EmptyFilterPrunesAll` | src/embeddings.rs:132-201 | with a filter that selects nothing the rebuild succeeds and the account's messages are gone |
| `Embeddings.EmbeddingIndex.IndexEmbeddings` | src/embeddings.rs:132-178 | works on the first min(limit, number listed) messages; a failed rebuild changes nothing and a limited or partly unreadable one removes nothing; an interrupted incremental run keeps exactly the messages before the failing one |
| `Embeddings.EmbeddingIndex.RunIncremental` | src/embeddings.rs:132-178 | the messages in turn, each seeing what earlier ones stored |
| `Embeddings.EmbeddingIndex.RunRebuild` | src/embeddings.rs:132-178 | everything is embedded before anything is written; it succeeds exactly when `Rebuild` does, and with a limit or an unreadable message no row goes |
| `Handles.DisplayedHandleResolves` | src/storage/handles.rs:12-55 | a displayed handle resolves to its own message or is ambiguous, and is ambiguous if and only if another active message shows it |
| `Handles.FullIdResolves` | src/storage/handles.rs:18-20 | the full id of an active message resolves to itself |
| `Handles.DeletedIdResolvesToNothing` | src/storage/handles.rs:12-55 | the full id of a deleted message matches no live one, by handle, prefix or content |
| `Handles.HandleOfGenerated` | src/storage.rs:331-363 | the handle of a generated id is its first eight hex digits after "msg_", or the whole id if it is a Proton one |
| `Handles.ResolvesAtFirstLevel` | src/storage/handles.rs:12-55 | a token stands for the only message that answers to it at the first of four levels, id, handle, start of the id, start of the content id, at which any does; it is ambiguous if several do there, and not found exactly if none does at any |
| `Handles.LikeIsPrefix` | src/storage/handles.rs:119-142 | without wildcards in the token the last level is a prefix test, letters in either case |
| `Handles.Storage.DisplayHandle` | src/storage/handles.rs:69-81 | the handle recomputed from the active ids, and the cache stays empty or equal to that map |
| `Handles.Storage.DecorateHandles` | src/storage/handles.rs:144-162 | every listed message gets what a single lookup would show |
| `Handles.Storage.Ingest` | src/storage/ingest.rs:33-47 | after a committed ingest the cache still matches the rows |
| `Handles.Storage.MarkMessageDeleted` | src/storage/mutate.rs:79-103 | deletes exactly an active message, and the cache still matches the rows |
| `ResetGuard.ManagedResetIsContained` | src/sync.rs:233-269 | an accepted managed target is strictly inside the mail root, contains neither the root nor the home directory, the working directory or its repository, and lies in neither of the last two; each is named |
| `ResetGuard.ManagedResetAccepts` | src/sync.rs:375-415 | for targets strictly inside the root, acceptance is exactly that the root is not the filesystem's, neither is nor contains home, and neither is, contains nor lies in the working directory or repository |
| `ResetGuard.StartsWithIff` | src/sync.rs:293-297 | a path starts with another exactly when it continues it |
| `ResetGuard.CustomResetExact` | src/sync.rs:280-312 | accepted if and only if confirmed, no ancestor of the root, and neither inside nor less than two levels above home, working directory or repository; so never inside any of the three |
| `ResetGuard.CustomResetMayContainHome` | src/sync.rs:280-312 | an accepted custom target that contains the home directory |
| `ResetGuard.ResolveCanonical` | src/sync.rs:193-220 | the loop gives the path that `Resolve` defines, or an error |
| `ResetGuard.ResolvesToNearest` | src/sync.rs:193-220 | a path resolves if and only if some ancestor exists with only names below it: to the real path of the nearest one, with those names kept |
| `ResetGuard.ResolvedIsReal` | src/sync.rs:193-220 | what was validated is what is deleted: a resolved path that exists is the real path, and one that did not exist still does not |
| `ResetGuard.MailDisk.ResetAccountCache` | src/sync.rs:165-189 | refused exactly when resolution or validation fails, and then nothing is deleted; else the target is outside working directory and repository, a custom one also outside home and confirmed, a managed one inside the root and containing neither home nor working directory; what goes are exactly the directories of the target whose removal does not fail, done only if none is left |
| `Percent.PercentDecode` | src/oauth.rs:304-322 | the index-advancing loop decodes triples, plus signs and everything else left to right, and ends the program if and only if some percent sign's slice would cut a character |
| `Percent.PlusIsBlank` | src/oauth.rs:317-318 | without a percent sign every byte stands for itself, but a plus sign for a blank |
| `Percent.SliceMayCutACharacter` | src/oauth.rs:309-312 | a text on which it does |
| `Percent.EncodedCutsNothing` | src/oauth.rs:293-302 | never one that the encoder wrote |
| `Percent.SignedTripleDecodes` | src/oauth.rs:309-312 | "%+d" decodes as one byte |
| `Percent.HexDigitIs` | src/oauth.rs:309-312 | a hex digit has the value of its place among the sixteen, in either case |
| `Percent.RoundTrip` | src/oauth.rs:293-322 | decoding undoes encoding on every byte string |
| `Percent.UnreservedAre` | src/oauth.rs:293-302 | the bytes kept as they are: ASCII letters, digits, and '-', '.', '_', '~' |
| `Percent.EncodingIsInjective` | src/oauth.rs:293-302 | no two byte strings encode alike |
| `Percent.ReencodesIffCanonical` | src/oauth.rs:293-322 | re-encoding what was decoded gives the same bytes if and only if they are unreserved characters and upper-case triples of other bytes |

## Left out

- Convergence.SyncConverges: the order in which the archive lists a role is arbitrary; the program sorts by the date header and the id, which any mail can carry.
- Sync.SyncFolder: stores a batch one message after another; the interleaving of the workers is modelled in `Download`, and their races with the server in `RemoteSafety`. An error while flags are refreshed, and the skipping of fetched messages without a listed UID or without bytes, are not modelled.
- RemoteSafety.StepKeepsInv: covers one account; the mutation audit log, policy checks and previews around a plan are not part of it.
- RunSync.RunSyncConvergesIff: is for an account that stores full bodies; with headers alone the listed size is never that of the blob, and only a Message-ID settles a message.
- ImapServer.Session.ExecuteSelected: a hard expunge issues UID EXPUNGE alone, so mail that does not already carry \Deleted stays (`ImapServer.CompletedExpunge`); the check for UIDPLUS before it is not modelled.
- SendQueue.EachItemIsSentAtMostOnce: speaks of recorded transport calls by commands run one at a time, since the queue takes no lock; an item id is assumed new when it is enqueued, and the message file unchanged between being keyed and being sent.
- SendQueue.Queue.Enqueue: the policy check before it and the time stamps other than that of creation are not modelled.
- ProtonEvents.CaughtUpEqualsCrashFree: events are named by their position in the log, a refresh event is a fixed list of upserts of the messages as `fetch` gives them, which is what an account with full bodies does (with headers alone a refresh stores the listed metadata and does not ask the cache), and the bootstrap and the paging of events are not modelled.
- ProtonEvents.EventRow: row ids are the Proton ids themselves; a collision of the truncated hash the program uses is not modelled.
- Threads.ThreadMessageIds: takes the sets of Message-IDs in any order; the program's sorted order affects only what is reached beyond the walk limit.
- AgentPoll.NextBatch: the comparison of addresses is the parameter `trusted`; the prompt and the status columns of the ledger are not modelled.
- Chunker.SplitOversizedConserves: characters are Unicode scalar values as in the program; text extraction from MIME is a parameter.
- Download.Shared.NextChunk: the loop of a worker, which interleaves with the other workers, is the step relation of `Download`; the class holds only what they share.
- Embeddings.RebuildReplacesAccount: vectors are sequences of integers because only their count and length matter; provider and model metadata and schema versions are not modelled.
- Handles.DisplayedHandleResolves: is about ids the program generates; an id of another shape may be shadowed by another message's handle. Writes through a second open storage do not reach the cache, in the program as here.
- ResetGuard.MailDisk.ResetAccountCache: takes home, working directory, repository and mail root as canonical absolute paths; a home directory reached through a symbolic link is not resolved by the program either. Components are names or "..".
- Percent.PercentDecode: is at the level of bytes of a text in UTF-8; replacing malformed output is not modelled.
- Full-text ranking, paging, highlighting and query syntax, and vector similarity: a match is an abstract predicate.
- MIME and header parsing: an uninterpreted function, the same one for listings, metadata and links.
- Network, TLS, OAuth flow, SMTP, IMAP and HTTP clients, PGP and SRP: foreign code.
- Attaching identities in the remote catalog, which sync does not use.
- Policy tables, labels, the command line, rendering and file permissions: each is read off one body.
