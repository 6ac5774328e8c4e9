# Verified model of the LAN chat protocols

A Dafny 4.11 model of the stateful cores of a LAN chat system (Go server, Qt client) with
machine-checked theorems about them. `dafny verify dfyconfig.toml` checks the whole project.

Every core has the same shape: tables and objects as plain values with one function per
operation, theorems over every history of operations, and a class whose methods change their
fields step by step as the source does and are proved equal to those functions.

**MLS control plane.** `MlsTables` holds the five control tables and the seven transactions
(propose, commit, welcome and accept for members, and three legacy paths); `MlsInvariants` and
`MlsHistory` prove what every history of them keeps. `MlsProtocol` is the client's operation
phases and the hub's relays, `MlsNetwork` any number of clients and the server over a network
that loses, repeats and reorders packets, with reconnects and traffic from other programs, and
`MlsAgreement` what holds in every run. `MlsProgress` says when each transaction accepts and that
the protocol can always go on, `MlsDelivery` what the hub and the clients send and adopt, and
`MlsRound` follows one add from end to end. `MlsStore` and `MlsWorker` are the objects. The
sequencing is the linear chain of commits of section 14 of RFC 9420, with Commit (section 12.4)
and joining through a Welcome (section 12.4.3.1).

**Encrypted attachments.** `AttachmentTables`, `AttachmentInvariants`, `AttachmentHistory` and
`AttachmentStore` model quota, chunk files, resume, publishing and cleanup with a crash possible
between any two file and database steps; `AttachmentAccess` says who may do what and when each
request succeeds. `ResumeCodec` is the resume answer on the wire,
`TransferState` and `UploadWindow` the client's state machine and sliding window,
`DownloadAssembler` the all-or-nothing download, and `FileRoundTrip` joins them: a file comes
back byte for byte. `Chunks` and `Digits` hold the arithmetic and the
number texts they share.

**Hub registry.** `HubTables`, `HubInvariants`, `HubOutcomes`, `HubNotices` and `HubServer`:
clients, codes, rooms and channel rights, with a client dropped whenever a delivery finds its
buffer full, what each request achieves and who is told.

**Rate limits.** `RateLimits`, over real-valued time.

**Incremental state snapshot.** `ChatModel`, `ConversationCache` and `SnapshotCache`: row models
that notify, the least-recently-used conversation cache and the cached serializations.

Assumptions, all visible in the code: SHA-256 is an injective constructor; encryption and
decryption are functions with `decrypt(encrypt(x)) == x` and 16 bytes of overhead; a transaction
applies fully or not at all; a client uses a command id for one operation only; results of the
MLS library, of file operations and of sends, map iteration order and full buffers are
parameters, so the theorems hold for all of them.

Some promises turned out not to hold of the code as written; each has its exact condition.
A client's epoch can exceed the server's if and only if the server admits a welcome above epoch 0
for one of the clients and a group without control state (`MlsAgreement.BoundFailsExactly`). The class
comment of the download assembler says that an existing target is left untouched unless the
download completes; that fails exactly if the target's removal succeeds and the rename then fails
(`DownloadAssembler.TargetUntouched`, `RenameFailureLosesTarget`). A resume reply during a running
upload stalls it for good if and only if all its indexes lie in the file, because it forgets the
commands in flight and not the job's count of them (`UploadWindow.ResumeStallsExactly`); a chunk
skipped because the connection is not ready has the same effect
(`UploadWindow.SkippedChunkNeverCommits`).

## Model

| member | source | states |
|---|---|---|
| `MlsAgreement.CommitAgreement` | client-cpp/gui/src/gui_connection_worker.cpp:1510-1566 | In every run of any number of clients and the server, with packets lost, repeated, reordered and re-sent, a commit a client has recorded for a group and epoch is byte-equal to the server's row of that epoch; so no two clients ever disagree |
| `MlsAgreement.DurableBeforeAdvance` | client-cpp/gui/src/gui_connection_worker.cpp:1402-1434 | In every run an operation is in its commit phase only if the server stores a proposal with its payload at its epoch, and in its welcome phase only if the server stores exactly its commit under its id |
| `MlsAgreement.OperationAdvancesOnce` | server-go/auth_store.go:524-535 | Once the server has stored a commit packet of an operation, no commit packet of that operation, however late or often re-sent, changes the database again |
| `MlsAgreement.ClientEpochBound` | client-cpp/gui/src/gui_connection_worker.cpp:1470-1507 | In every run a client epoch is 0, at most the server's current epoch, or the epoch of a legacy welcome that was relayed to that client |
| `MlsAgreement.EpochNeverAhead` | server-go/hub.go:1546-1621 | In every run that never takes the branch of an admitted legacy welcome above epoch 0 for one of its clients, no client epoch above 0 exceeds the server's current epoch; refused welcomes, epoch 0 and other receivers are allowed |
| `MlsAgreement.LegacyWelcomeBreaksTheBound` | server-go/auth_store.go:856-915 | Every step of that branch, with any proposal id, digest and audience, puts its target ahead of the server as soon as the relay reaches it outside the group |
| `MlsAgreement.LegacyWelcomeExactly` | server-go/hub.go:1598-1621 | A step relays a legacy welcome above epoch 0 to a client if and only if it is of that branch |
| `MlsAgreement.BoundFailsExactly` | server-go/hub.go:1546-1621 | The exact condition: in any run that has not taken the branch so far, some continuation without it puts a client ahead if and only if the next step takes it |
| `MlsAgreement.GuiTrafficIsStrict` | client-cpp/gui/src/gui_connection_worker.cpp:1021-1190 | No packet a GUI client can send ever takes a legacy path of the store |
| `MlsNetwork.NextKeeps` | server-go/hub.go:1369-1654 | Every step of the network (client actions, delivery, service, login replay, reconnect, foreign traffic) keeps the system invariant |
| `MlsNetwork.RunSysKeeps` | client-cpp/gui/src/gui_connection_worker.cpp:1291-1328 | The system invariant holds in every reachable state, over any schedule of steps |
| `MlsNetwork.DeliverKeeps` | client-cpp/gui/src/gui_connection_worker.cpp:1330-1644 | Handling any packet that was ever sent, at any time, keeps the system invariant |
| `MlsNetwork.ReconnectKeeps` | client-cpp/gui/src/gui_connection_worker.cpp:1291-1328 | Re-sending the pending operations after a reconnect, with some sends failing, keeps the system invariant |
| `MlsNetwork.ServeKeeps` | server-go/hub.go:1369-1654 | Serving any packet, with any audience and access verdict, keeps the system invariant: relays and answers agree with the rows |
| `MlsNetwork.LoginKeeps` | server-go/auth_store.go:299-335 | Replaying the pending welcomes at login keeps the system invariant |
| `MlsHistory.MembershipTheorem` | server-go/auth_store.go:600-604 | After any requests, strict and legacy mixed, a user is active exactly if the last thing that happened to him in the log is the creator bootstrap or an accepted welcome and not a committed remove; an inactive row's removed epoch is a committed remove of that user and not before he joined |
| `MlsHistory.MembershipIsReplay` | server-go/auth_store.go:1032-1055 | The membership table is at all times the replay of the log of stored requests |
| `MlsHistory.ResendIsNoOp` | server-go/auth_store.go:434-441 | A request that once succeeded changes no table when it is sent again at any later time |
| `MlsHistory.OldRequestNeverReactivates` | server-go/auth_store.go:1032-1041 | After any later history, re-sending an earlier successful request activates and deactivates nobody |
| `MlsHistory.PendingIsUnique` | server-go/auth_store.go:337-346 | At most one welcome of a group is pending and its epoch is the group's current epoch |
| `MlsHistory.PendingNeverStale` | server-go/auth_store.go:316-331 | After any requests to any groups, no row PendingMLSWelcomes reads is stale, so it never answers ErrMLSWelcomeStale |
| `MlsHistory.DeadStaysDead` | server-go/auth_store.go:793-811 | Once a group has a commit and no active member, no sequence of strict or legacy requests makes anyone active again |
| `MlsHistory.StrictCommitsAreContiguous` | server-go/auth_store.go:541-599 | On strict histories the committed epochs are exactly one interval ending at the current epoch, each commit naming a proposal of its own epoch |
| `MlsHistory.CurrentEpochIsMaximum` | server-go/auth_store.go:445-486 | With legacy commits mixed in, the current epoch is still the greatest committed epoch, and -1 only without commits |
| `MlsHistory.GroupsAreIndependent` | server-go/auth_store.go:410-613 | The rows of a group after any traffic are what its own requests alone make of them |
| `MlsHistory.RunDbKeeps` | server-go/auth_store.go:410-1060 | Every history of requests keeps the invariant of every group |
| `MlsHistory.StepExtends` | server-go/auth_store.go:594-604 | No transaction changes or deletes a proposal or commit, deletes a welcome, takes an acceptance back or lowers the current epoch |
| `MlsInvariants.StepHasEffect` | server-go/auth_store.go:410-1060 | A request that is not stored changes nothing; a stored one has passed its guards and wrote exactly the rows of its effect |
| `MlsInvariants.StepKeeps` | server-go/auth_store.go:410-1060 | Every request, accepted or refused, strict or legacy, keeps the table invariant |
| `MlsInvariants.RunKeeps` | server-go/auth_store.go:410-1060 | So does every sequence of requests |
| `MlsInvariants.PendingBlocks` | server-go/auth_store.go:337-346 | A pending welcome is always found by the query that guards proposals and commits |
| `MlsInvariants.BootstrapIsFresh` | server-go/auth_store.go:793-804 | The creator bootstrap only ever inserts a new member row; it never re-activates a removed one |
| `MlsStore.CollectActive` | server-go/auth_store.go:253-280 | The row loop returns exactly the active members |
| `MlsStore.AuthStore.SaveProposal` | server-go/auth_store.go:615-700 | Checks and writes step by step, result and tables equal to the legacy proposal transaction; keeps the invariant |
| `MlsStore.AuthStore.SaveProposalForMember` | server-go/auth_store.go:702-854 | The same for the member proposal with bootstrap and snapshot |
| `MlsStore.AuthStore.SaveCommit` | server-go/auth_store.go:410-494 | The same for the legacy commit |
| `MlsStore.AuthStore.SaveCommitForMember` | server-go/auth_store.go:496-613 | The same for the member commit, which removes the target of a remove |
| `MlsStore.AuthStore.SaveWelcome` | server-go/auth_store.go:856-915 | The same for the legacy welcome, which is born accepted |
| `MlsStore.AuthStore.SaveWelcomeForMember` | server-go/auth_store.go:917-1003 | The same for the member welcome |
| `MlsStore.AuthStore.AcceptWelcomeForMember` | server-go/auth_store.go:1005-1060 | The same for accepting a welcome, which activates the member |
| `MlsStore.AuthStore.PendingWelcomes` | server-go/auth_store.go:299-335 | Never reports a stale welcome and returns exactly the target's pending ones |
| `MlsStore.AuthStore.HasControlState` | server-go/auth_store.go:279-297 | False for a group only if none of the five tables has a row for it; once true it stays true whatever is requested |
| `MlsHistory.ControlStateExactly` | server-go/auth_store.go:279-297 | A group has control state if and only if some request for it was ever stored; it keeps it after its last member is gone |
| `MlsWorker.GuiConnectionWorker.AddMember` | client-cpp/gui/src/gui_connection_worker.cpp:1021-1112 | The handler changes groups, pending operations and outgoing packets exactly as the protocol transition the theorems are about |
| `MlsWorker.GuiConnectionWorker.RemoveMember` | client-cpp/gui/src/gui_connection_worker.cpp:1114-1190 | The same for removing a member |
| `MlsWorker.GuiConnectionWorker.ProcessMessage` | client-cpp/gui/src/gui_connection_worker.cpp:1330-1644 | The same for every kind of incoming control message |
| `MlsWorker.GuiConnectionWorker.ResumePending` | client-cpp/gui/src/gui_connection_worker.cpp:1291-1328 | The pass after a reconnect drops operations in the welcome phase and re-sends the others |
| `MlsWorker.GuiConnectionWorker.ResetMlsState` | client-cpp/gui/src/gui_connection_worker.cpp:1192-1204 | Groups and pending operations are cleared |
| `AttachmentHistory.QuotaConservation` | server-go/attachment_store.go:157-195 | For every room after any history with crashes: reserved bytes are the sum over live uploads, used bytes the sum over committed attachments, both non-negative and together at most 20 GiB |
| `AttachmentHistory.SizesTile` | server-go/attachment_store.go:440-473 | The plaintext sizes of the chunks are positive, at most one chunk, and add up to the file size exactly |
| `AttachmentHistory.CommittedIsReadable` | server-go/attachment_store.go:428-473 | After any history with crashes, every index of a committed attachment can be read with the size its place demands, only the last is marked last, and any other index is refused |
| `AttachmentHistory.CommitPublishesAccepted` | server-go/attachment_store.go:553-634 | A successful commit publishes for every index exactly the ciphertext whose digest was accepted, and its digest is that of their concatenation |
| `AttachmentHistory.CommittedForever` | server-go/attachment_store.go:537-634 | Nothing that happens later changes a committed attachment or any of its files |
| `AttachmentHistory.RetryOfAcceptedChunk` | server-go/attachment_store.go:315-336 | A retry of an accepted chunk leaves the store as it is: equal bytes are a duplicate (a disk failure if the file was damaged), other bytes a conflict |
| `AttachmentHistory.DownloadsWhatWasSent` | server-go/attachment_store.go:301-366 | Whatever the order, repetition, loss and crashes, once the attachment is committed downloading index i gives exactly the client's chunk i |
| `AttachmentHistory.CommitSucceedsExactly` | server-go/attachment_store.go:553-612 | A commit of the client's chunks succeeds if and only if every chunk has its row and the directory is not published yet |
| `AttachmentHistory.CrashLeavesGap` | server-go/attachment_store.go:602-618 | A crash between the publishing rename and the commit transaction leaves the attachment published and not committed |
| `AttachmentHistory.PublishGapIsFinal` | server-go/attachment_store.go:602-612 | That state is final: whatever is requested afterwards, the attachment is never committed |
| `AttachmentHistory.ResumeListsRows` | server-go/attachment_store.go:369-412 | For an undamaged upload the resume answer holds exactly the accepted indexes and changes no row |
| `AttachmentHistory.ResumableAfterHistory` | server-go/attachment_store.go:206-235 | After any history of drops, crashes and other traffic, an upload that is live and not in the publish gap satisfies what resuming needs |
| `AttachmentHistory.ResumeCompletes` | server-go/attachment_store.go:369-412 | After any history outside the publish gap, sending exactly the indexes missing from the resume answer, in any order, makes the commit succeed and publishes the client's chunks |
| `AttachmentInvariants.ApplyKeeps` | server-go/attachment_store.go:128-634 | Every operation, cut short by a crash or not, keeps the invariant of tables and files |
| `AttachmentInvariants.RunKeeps` | server-go/attachment_store.go:128-634 | So does every history of operations, crashes and disk faults on unpublished files |
| `AttachmentInvariants.CheckMeans` | server-go/attachment_store.go:560-600 | When the verification loop succeeds, every index has a row, a matching file and the size of its plaintext and tag |
| `AttachmentTables.AscendingMeans` | server-go/attachment_store.go:378-412 | The resume answer is strictly ascending and holds exactly the indexes it should |
| `AttachmentStore.CleanupKeeps` | server-go/attachment_store.go:478-535 | A cleanup pass keeps the invariant whatever rows the query returned |
| `AttachmentStore.VerifyChunks` | server-go/attachment_store.go:553-601 | The loop over the chunk rows equals the recursive check |
| `AttachmentStore.AuthStore.Load` | server-go/attachment_store.go:206-235 | Author, existence and expiry are checked in this order |
| `AttachmentStore.AuthStore.InitializeAttachment` | server-go/attachment_store.go:128-204 | Step by step equal to the init transaction, with every refusal |
| `AttachmentStore.AuthStore.StoreAttachmentChunk` | server-go/attachment_store.go:301-366 | Step by step equal to storing a chunk: duplicate, conflict, recovered file, new file |
| `AttachmentStore.AuthStore.ResumeAttachmentUpload` | server-go/attachment_store.go:369-426 | The row loop answers the verified indexes in order and removes exactly the invalid rows and files |
| `AttachmentStore.AuthStore.RemoveInvalid` | server-go/attachment_store.go:400-411 | Exactly the listed rows and files of the upload are removed |
| `AttachmentStore.AuthStore.CommitAttachmentUpload` | server-go/attachment_store.go:537-634 | Verification, publishing and the transaction, equal to the commit operation |
| `AttachmentStore.AuthStore.CommitTransaction` | server-go/attachment_store.go:613-634 | Attachment, quota, chunk rows and upload change together |
| `AttachmentStore.AuthStore.ReadAttachmentChunk` | server-go/attachment_store.go:428-473 | Equal to the read operation, with its errors |
| `AttachmentStore.AuthStore.CleanupExpired` | server-go/attachment_store.go:478-535 | Every listed upload is removed with its reservation and directory |
| `AttachmentStore.AuthStore.ExpireTransaction` | server-go/attachment_store.go:500-531 | The transaction for one expired upload |
| `ResumeCodec.RoundTrip` | server-go/hub.go:1756-1776 | For every ascending list of chunk indexes below 111551, reading what was written gives the list back, as list and as bitmap |
| `ResumeCodec.DecodeExactly` | client-cpp/src/message.cpp:216-251 | A bitmap is accepted if and only if its length is even and bounded, it is hexadecimal and marks no chunk out of range; the result is then the ascending list of its marks |
| `ResumeCodec.WrittenText` | client-cpp/include/attachment_limits.hpp:6-9 | The written bitmap marks exactly the indexes, is hexadecimal and at most 27888 characters long, the reader's limit |
| `ResumeCodec.FitsFrame` | server-go/hub.go:1756-1776 | Both forms stay inside the 64 KiB frame with the longest ids, the bitmap form below 28 KiB |
| `ResumeCodec.FillMeans` | server-go/hub.go:1770-1773 | After the filling loop a bit is set exactly if its index was given or it was set before |
| `ResumeCodec.AttachmentResumeMessage` | server-go/hub.go:1756-1776 | The loops over the byte buffer produce the encoding |
| `ResumeCodec.ReceiveBits` | client-cpp/src/message.cpp:241-250 | The inner decoder loop |
| `ResumeCodec.ReceiveIndexes` | client-cpp/src/message.cpp:216-265 | The decoder with its ambiguity, length, digit and range checks |
| `DownloadAssembler.RunTracksProgress` | client-cpp/gui/src/attachments/attachment_download_assembler.cpp:40-138 | In every state reachable without a failed deletion the part file exists exactly if a download is in progress |
| `DownloadAssembler.StepTracksProgress` | client-cpp/gui/src/attachments/attachment_download_assembler.cpp:112-138 | Any rejected chunk, cancel, failed begin and completion deletes the part file; the part file tracks the progress after a step if and only if no deletion it needs fails |
| `DownloadAssembler.PartOutlivesItsDownload` | client-cpp/gui/src/attachments/attachment_download_assembler.cpp:40-138 | The part file of a download stays if and only if the download goes on or its deletion fails, also when another one is begun |
| `DownloadAssembler.AllOrNothing` | client-cpp/gui/src/attachments/attachment_download_assembler.cpp:66-110 | After any chunks and cancels with any outcomes of file operations, the part file is the plaintext prefix of the accepted chunks and zeros behind it, and a completed download is the whole plaintext |
| `DownloadAssembler.AcceptAssembles` | client-cpp/gui/src/attachments/attachment_download_assembler.cpp:88-100 | A written chunk extends the prefix: each offset is written once, in order |
| `DownloadAssembler.TargetUntouched` | client-cpp/gui/src/attachments/attachment_download_assembler.cpp:120-132 | The target is touched only when the last chunk verifies; it is lost without a completed download if and only if its removal succeeds and the rename fails |
| `DownloadAssembler.RenameFailureLosesTarget` | client-cpp/gui/src/attachments/attachment_download_assembler.cpp:120-132 | A concrete download that loses an existing target, against the promise of the class comment |
| `DownloadAssembler.TargetKept` | client-cpp/gui/src/attachments/attachment_download_assembler.cpp:112-132 | As long as no rename fails, a download that does not complete leaves the target as it was |
| `DownloadAssembler.OtherFilesUntouched` | client-cpp/gui/src/attachments/attachment_download_assembler.cpp:66-138 | No other file is changed by a chunk or a cancel |
| `DownloadAssembler.CompleteIsFinal` | client-cpp/gui/src/attachments/attachment_download_assembler.cpp:66-73 | After completion further chunks and cancels change nothing |
| `DownloadAssembler.DownloadCompletes` | client-cpp/gui/src/attachments/attachment_download_assembler.cpp:66-110 | Delivering the chunks in order completes with the whole file |
| `DownloadAssembler.AttachmentDownloadAssembler.BeginDownload` | client-cpp/gui/src/attachments/attachment_download_assembler.cpp:40-64 | Step by step equal to the begin operation |
| `DownloadAssembler.AttachmentDownloadAssembler.Accept` | client-cpp/gui/src/attachments/attachment_download_assembler.cpp:66-110 | Step by step equal to the chunk operation |
| `DownloadAssembler.AttachmentDownloadAssembler.Cancel` | client-cpp/gui/src/attachments/attachment_download_assembler.cpp:112-112 | The part is discarded |
| `DownloadAssembler.AttachmentDownloadAssembler.FinalizeDownload` | client-cpp/gui/src/attachments/attachment_download_assembler.cpp:120-132 | Remove, rename and the two ways to fail |
| `DownloadAssembler.AttachmentDownloadAssembler.Discard` | client-cpp/gui/src/attachments/attachment_download_assembler.cpp:134-138 | The part file is removed and forgotten |
| `TransferState.CompletedExactlyWhenAllReceived` | client-cpp/gui/src/attachments/attachment_transfer_state.cpp:34-56 | After any calls in any order, a transfer is complete if and only if it has chunks and the acknowledged ones are exactly all of them, and then and only then nothing is missing |
| `TransferState.TerminalIsFinal` | client-cpp/gui/src/attachments/attachment_transfer_state.cpp:80-88 | A completed, cancelled or failed transfer keeps its status and its acknowledged chunks whatever is called afterwards |
| `TransferState.RunKeeps` | client-cpp/gui/src/attachments/attachment_transfer_state.cpp:7-104 | Acknowledged and pending indexes stay in range and no chunk has more than three failures unless the transfer has failed |
| `TransferState.MissingMeans` | client-cpp/gui/src/attachments/attachment_transfer_state.cpp:98-104 | The missing indexes are ascending and exactly the unacknowledged ones |
| `TransferState.AttachmentTransferState.BeginTransfer` | client-cpp/gui/src/attachments/attachment_transfer_state.cpp:7-19 | Equal to the begin operation |
| `TransferState.AttachmentTransferState.AcceptInitReply` | client-cpp/gui/src/attachments/attachment_transfer_state.cpp:21-32 | Equal to taking an init answer |
| `TransferState.AttachmentTransferState.AcceptResumeReply` | client-cpp/gui/src/attachments/attachment_transfer_state.cpp:34-47 | The validation loop: a reply with an index outside the file changes nothing, otherwise it replaces the acknowledged set |
| `TransferState.AttachmentTransferState.AcceptAck` | client-cpp/gui/src/attachments/attachment_transfer_state.cpp:49-55 | Equal to acknowledging an index |
| `TransferState.AttachmentTransferState.RegisterCommand` | client-cpp/gui/src/attachments/attachment_transfer_state.cpp:57-63 | Equal to registering a command |
| `TransferState.AttachmentTransferState.AcceptCommandAck` | client-cpp/gui/src/attachments/attachment_transfer_state.cpp:65-71 | Equal to acknowledging a command |
| `TransferState.AttachmentTransferState.RecordChunkFailure` | client-cpp/gui/src/attachments/attachment_transfer_state.cpp:73-78 | Equal to recording a failure, the fourth of which fails the transfer |
| `TransferState.AttachmentTransferState.CancelTransfer` | client-cpp/gui/src/attachments/attachment_transfer_state.cpp:80-84 | Only a running transfer is cancelled |
| `TransferState.AttachmentTransferState.FailTransfer` | client-cpp/gui/src/attachments/attachment_transfer_state.cpp:86-88 | A finished transfer does not fail |
| `TransferState.AttachmentTransferState.MissingIndexes` | client-cpp/gui/src/attachments/attachment_transfer_state.cpp:98-104 | The loop returns the unacknowledged chunks in order |
| `UploadWindow.SlidingWindow` | client-cpp/gui/src/gui_connection_worker.cpp:644-681 | For every order, repetition and loss of acknowledgements, every failure of reads, sends and chunks, refused resume replies at any time and any resume reply once the upload has ended: while the upload runs the in-flight count equals the pending commands, is at most 8 and is less only once every chunk is out; chunks go out once each in ascending order; the transfer is complete if and only if every chunk is acknowledged, and exactly then the one commit has been sent |
| `UploadWindow.Terminates` | client-cpp/gui/src/gui_connection_worker.cpp:870-918 | A running upload always waits for a chunk, and a run of acknowledgements ends it exactly with the last missing one |
| `UploadWindow.FillKeeps` | client-cpp/gui/src/gui_connection_worker.cpp:650-681 | The filling loop ends with a full window, with every chunk sent, or with a failed upload |
| `UploadWindow.AckKeeps` | client-cpp/gui/src/gui_connection_worker.cpp:870-918 | An acknowledgement of an outstanding chunk counts once, refills the window or, as the last one, commits |
| `UploadWindow.FillBreaksExactly` | client-cpp/gui/src/gui_connection_worker.cpp:644-681 | A refill fails the upload if and only if one of the reads and sends it makes fails; otherwise it ends with every chunk out, up to eight in flight or the end of the file |
| `UploadWindow.AckExactly` | client-cpp/gui/src/gui_connection_worker.cpp:870-890 | An acknowledgement counts the chunk of the command it names, or else the outstanding chunk it names; any other changes nothing |
| `UploadWindow.ErrorEnds` | client-cpp/gui/src/gui_connection_worker.cpp:787-802 | An error for an outstanding command fails the upload and leaves neither job nor pending command; any other error changes nothing |
| `UploadWindow.CommandsAreDistinct` | client-cpp/gui/src/gui_connection_worker.cpp:674-674 | Different chunks of an upload never share a command id |
| `UploadWindow.AcceptedResumeStalls` | client-cpp/gui/src/attachments/attachment_transfer_state.cpp:34-47 | A resume reply whose indexes all lie in the file, taken while the upload runs, stalls it: whatever arrives afterwards, no chunk and no commit is ever sent |
| `UploadWindow.ResumeStallsExactly` | client-cpp/gui/src/attachments/attachment_transfer_state.cpp:34-47 | The exact condition: a running upload can still be committed after a resume reply if and only if some index of the reply lies outside the file, and then the reply changes nothing |
| `UploadWindow.CanFinish` | client-cpp/gui/src/gui_connection_worker.cpp:870-918 | From every running state some sequence of acknowledgements leads to the commit |
| `UploadWindow.SkippedChunkNeverCommits` | client-cpp/gui/src/gui_connection_worker.cpp:605-612 | The exact condition on the connection: one turn of the filling loop leaves the upload running or failed if and only if the connection was ready; after a skipped chunk no commit is ever sent |
| `UploadWindow.EndedStays` | client-cpp/gui/src/gui_connection_worker.cpp:785-802 | A failed upload sends nothing more; a finished one ignores everything, resume replies included |
| `UploadWindow.UploadWorker.SendAttachmentChunk` | client-cpp/gui/src/gui_connection_worker.cpp:605-642 | Registration, send and the failed send |
| `UploadWindow.UploadWorker.SendNextAttachmentChunk` | client-cpp/gui/src/gui_connection_worker.cpp:644-681 | The while loop equals the window filling |
| `UploadWindow.UploadWorker.FindPending` | client-cpp/gui/src/gui_connection_worker.cpp:871-881 | The pending command the reply names, or else the one of its chunk, or none |
| `UploadWindow.UploadWorker.SettleChunk` | client-cpp/gui/src/gui_connection_worker.cpp:882-918 | Acknowledgement, refill or commit |
| `UploadWindow.UploadWorker.OnChunkReply` | client-cpp/gui/src/gui_connection_worker.cpp:870-918 | The whole branch, equal to the acknowledgement the theorems are about |
| `UploadWindow.UploadWorker.OnError` | client-cpp/gui/src/gui_connection_worker.cpp:787-802 | An error for a pending chunk fails the upload and forgets its commands |
| `UploadWindow.UploadWorker.OnResume` | client-cpp/gui/src/gui_connection_worker.cpp:857-869 | Some index outside the file: nothing changes. All inside while the upload runs: nothing is pending any more and the acknowledged set is the reply's. The job is never touched |
| `FileRoundTrip.EndToEnd` | client-cpp/gui/src/attachments/transfer_client.cpp:11-49 | Any file, split, encrypted and stored in any order amid any traffic and crashes, then committed and downloaded 0 to n-1 into the assembler, comes back byte for byte |
| `FileRoundTrip.EncryptNextChunk` | client-cpp/gui/src/attachments/transfer_client.cpp:11-49 | On a file of the announced size it yields exactly the chunk that is due, encrypted for its place, marks the last one and moves on; bad contexts are refused |
| `FileRoundTrip.StreamEncrypt` | client-cpp/gui/src/attachments/transfer_client.cpp:67-106 | Every chunk goes to the sink in order and once; it fails exactly when a context is unsupported, the file is too short or the sink refuses |
| `FileRoundTrip.StreamLoop` | client-cpp/gui/src/attachments/transfer_client.cpp:82-105 | The loop over the remaining bytes |
| `FileRoundTrip.UploadIsCiphertext` | client-cpp/gui/src/attachments/transfer_client.cpp:11-49 | What the client produces has the sizes the store demands |
| `FileRoundTrip.ResumeAnswerSurvives` | server-go/hub.go:1744-1776 | The store's resume answer reaches the client unchanged |
| `FileRoundTrip.ClientResumeCompletes` | client-cpp/gui/src/attachments/attachment_transfer_state.cpp:34-47 | The client that takes the decoded answer and sends its missing indexes has its upload committed |
| `HubInvariants.RegistryTheorem` | server-go/hub.go:484-540 | In every reachable state, with slow clients dropped in the middle of anything: clients and active codes are in bijection; each client is in the set of its own room and no other; that room is defined; if it is private the client is an administrator or allowed |
| `HubInvariants.ChatReachesTheRoom` | server-go/hub.go:731-804 | With a store attached a chat reaches only clients of the author's room, each at most once, and once saved all that stay connected; without one the only difference is an author no longer connected, whose chat reaches everybody |
| `HubInvariants.StepKeeps` | server-go/hub.go:403-482 | Every request keeps the registry invariant |
| `HubInvariants.RunKeeps` | server-go/hub.go:403-482 | So does every sequence of requests |
| `HubInvariants.RemoveKeeps` | server-go/hub.go:837-855 | Removing a client frees its code and place and nobody else's |
| `HubInvariants.DeliverKeeps` | server-go/hub.go:813-835 | A delivery drops at most the client it was meant for and says whether it arrived |
| `HubInvariants.DeliverAllCounts` | server-go/hub.go:857-864 | In a broadcast each receiver still there afterwards got the message once more, and nobody else anything |
| `HubInvariants.RegisterKeeps` | server-go/hub.go:484-540 | Registration with takeover keeps the invariant |
| `HubInvariants.ChangeRoomKeeps` | server-go/hub.go:926-957 | So does a change of rooms, also when the client is dropped in between |
| `HubInvariants.DeleteKeeps` | server-go/hub.go:993-1003 | Deleting a channel moves every member to the lobby first |
| `HubInvariants.ExcludeKeeps` | server-go/hub.go:1014-1024 | Taking a code off a channel's list moves its client out |
| `HubServer.ChatHub.HandleRegister` | server-go/hub.go:484-540 | Step by step equal to the registration request |
| `HubServer.ChatHub.UnregisterClient` | server-go/hub.go:696-729 | Step by step equal to the unregister request |
| `HubServer.ChatHub.Remove` | server-go/hub.go:837-855 | Equal to the removal |
| `HubServer.ChatHub.Send` | server-go/hub.go:813-835 | Equal to a delivery |
| `HubServer.ChatHub.SendAll` | server-go/hub.go:857-864 | The loop over clients |
| `HubServer.ChatHub.HandleRoomJoin` | server-go/hub.go:926-957 | Equal to the join request |
| `HubServer.ChatHub.HandleRoomCreate` | server-go/hub.go:959-978 | Equal to the create request |
| `HubServer.ChatHub.HandleRoomLeave` | server-go/hub.go:1028-1045 | Equal to the leave request |
| `HubServer.ChatHub.HandleRoomAction` | server-go/hub.go:980-1026 | Equal to delete, invite and remove_member |
| `HubServer.ChatHub.EvictAll` | server-go/hub.go:994-999 | The loop that empties a deleted channel |
| `HubServer.ChatHub.HandleKick` | server-go/hub.go:615-629 | Equal to the kick action |
| `HubServer.ChatHub.HandleMute` | server-go/hub.go:630-638 | Equal to the mute action |
| `HubServer.ChatHub.BroadcastMessage` | server-go/hub.go:731-804 | Equal to the broadcast of a chat |
| `HubServer.ChatHub.TakeFromRoom` | server-go/hub.go:1066-1076 | Equal to removeFromRoom |
| `HubServer.ChatHub.PutIntoRoom` | server-go/hub.go:1047-1052 | Equal to addToRoom |
| `HubServer.ChatHub.RunLoop` | server-go/hub.go:403-482 | The loop over requests equals the run the theorem is about and keeps the invariant |
| `RateLimits.MessagesInWindow` | server-go/connection_limits.go:57-73 | For any call times, the messages allowed in any window of T seconds number at most 16 + 8 T |
| `RateLimits.RefusedExactly` | server-go/connection_limits.go:57-73 | A message is refused if and only if with it some window ending now would exceed 16 + 8 T |
| `RateLimits.SpacedCallIsAllowed` | server-go/connection_limits.go:57-73 | A call at least 1/8 s after the one before it is always allowed, and so is the first |
| `RateLimits.DebtIsOneFrame` | server-go/connection_limits.go:35-51 | If the caller sleeps every delay, the budget never falls below one frame of debt and no delay exceeds 1/512 s |
| `RateLimits.FramesInWindow` | server-go/connection_limits.go:35-51 | The frames of any window stay within burst plus rate times T plus one frame |
| `RateLimits.InboundRateLimiter.AllowMessage` | server-go/connection_limits.go:57-73 | Fields updated in place as the bucket the bounds are about |
| `RateLimits.AttachmentRateLimiter.DelayFrame` | server-go/connection_limits.go:35-51 | The same for the byte budget and its delay |
| `SnapshotCache.SnapshotsAgree` | client-cpp/gui/src/chat_bridge.cpp:240-249 | At every state build, whatever happened before, each model the state shows is live and its cached snapshot equals a fresh serialization; at most 8 conversations are cached, the active one among them |
| `SnapshotCache.StepKeeps` | client-cpp/gui/src/chat_bridge.cpp:170-197 | Every change, selection, reset, eviction and build keeps the agreement |
| `SnapshotCache.AdoptTables` | client-cpp/gui/src/chat_bridge.cpp:182-186 | Models come and go without a stale snapshot, also when an address is used again |
| `SnapshotCache.ChatBridge.ConnectModel` | client-cpp/gui/src/chat_bridge.cpp:170-188 | A new model is connected and dirty, a known one unchanged |
| `SnapshotCache.ChatBridge.ModelDestroyed` | client-cpp/gui/src/chat_bridge.cpp:182-186 | The tables agree with the models that are left, and whatever model comes to the same address starts dirty |
| `SnapshotCache.ChatBridge.RefreshSnapshots` | client-cpp/gui/src/chat_bridge.cpp:240-249 | The loop over the dirty models equals the build |
| `ChatModel.VisibleChangeNotifies` | client-cpp/gui/src/chat_model.cpp:46-199 | For every operation: a change that does not notify cannot be seen in the serialization, and no more than 1000 rows remain |
| `ChatModel.AppendKeepsIdsDistinct` | client-cpp/gui/src/chat_model.cpp:50-100 | However often messages arrive, no two rows show the same message id |
| `ChatModel.RepeatShownOnceExactly` | client-cpp/gui/src/chat_model.cpp:56-72 | A row appended twice is shown once if and only if its id is a text and not empty |
| `ChatModel.ChatListModel.Append` | client-cpp/gui/src/chat_model.cpp:50-100 | The de-duplication loop, trimming and notifications |
| `ChatModel.ChatListModel.Prepend` | client-cpp/gui/src/chat_model.cpp:102-128 | Trimming at the end and insertion in front |
| `ChatModel.ChatListModel.Replace` | client-cpp/gui/src/chat_model.cpp:130-140 | Notifies exactly if the rows differ |
| `ChatModel.ChatListModel.Find` | client-cpp/gui/src/chat_model.cpp:142-150 | The first row with the value, or -1 |
| `ChatModel.ChatListModel.Update` | client-cpp/gui/src/chat_model.cpp:157-161 | Merges the values and notifies |
| `ChatModel.ChatListModel.UpdateAll` | client-cpp/gui/src/chat_model.cpp:163-182 | One notification for all rows, none when no value differs |
| `ChatModel.ChatListModel.Remove` | client-cpp/gui/src/chat_model.cpp:184-189 | Removes the row and notifies |
| `ChatModel.ChatListModel.RemoveByValue` | client-cpp/gui/src/chat_model.cpp:191-195 | Removes every matching row |
| `ConversationCache.EvictsLeastRecentlyUsed` | client-cpp/gui/src/gui_chat_controller.cpp:922-938 | One step: of the conversations neither active nor being opened, the evicted one was used before every one that stays, if the access numbers are the history of uses |
| `SnapshotCache.EvictionIsLeastRecentlyUsed` | client-cpp/gui/src/gui_chat_controller.cpp:922-938 | In every reachable state: whenever a message, a selection or a reset evicts a conversation, that one was last used before every one that stays, apart from the active one and the one being opened |
| `SnapshotCache.RunRecency` | client-cpp/gui/src/gui_chat_controller.cpp:910-920 | In every reachable state the access numbers are the positions of the last uses in the history of the run |
| `ConversationCache.EnsureShape` | client-cpp/gui/src/gui_chat_controller.cpp:910-938 | Opening a conversation changes a full cache by exactly the oldest evictable model and leaves at most 8 |
| `ConversationCache.EnsureKeeps` | client-cpp/gui/src/gui_chat_controller.cpp:910-920 | Every opening keeps the active conversation cached with its model |
| `ConversationCache.SelectKeeps` | client-cpp/gui/src/gui_chat_controller.cpp:280-284 | So does selecting a conversation |
| `ConversationCache.ResetKeeps` | client-cpp/gui/src/gui_chat_controller.cpp:389-405 | So does the session reset, also when the lobby's model was evicted before |
| `ConversationCache.RecencyKept` | client-cpp/gui/src/gui_chat_controller.cpp:910-920 | The access numbers always say when each cached conversation was last used |
| `ConversationCache.LeastMeans` | client-cpp/gui/src/gui_chat_controller.cpp:924-934 | The search loop finds the least access number among the keys that may go |
| `ConversationCache.GuiChatController.EnsureConversationModel` | client-cpp/gui/src/gui_chat_controller.cpp:910-920 | Fields updated in place as the cache the theorems are about |
| `ConversationCache.GuiChatController.TrimConversationModelCache` | client-cpp/gui/src/gui_chat_controller.cpp:922-938 | The eviction loop |
| `ConversationCache.GuiChatController.LeastRecentlyUsed` | client-cpp/gui/src/gui_chat_controller.cpp:926-933 | The search loop |
| `ConversationCache.GuiChatController.SelectConversation` | client-cpp/gui/src/gui_chat_controller.cpp:280-284 | Selection keeps the invariant |
| `ConversationCache.GuiChatController.ResetSession` | client-cpp/gui/src/gui_chat_controller.cpp:396-399 | The end of the session reset keeps the invariant |
| `MlsProgress.CommitStoredExactly` | server-go/auth_store.go:496-613 | A commit is stored if and only if its fields are set, the epoch is not committed, the group exists in that room, no welcome is pending, the epoch is the next one (or the first), the sender is active and the proposal is stored for that epoch |
| `MlsProgress.CommitRefusals` | server-go/auth_store.go:536-592 | The refusal of a new commit for each guard that fails, in the order of precedence |
| `MlsProgress.CommitOfKnownEpoch` | server-go/auth_store.go:524-535 | A commit of a committed epoch is a duplicate exactly for an active sender who repeats it; otherwise access or conflict |
| `MlsProgress.ProposeStoredExactly` | server-go/auth_store.go:702-854 | A proposal is stored if and only if its fields are set, id and payload are new for the epoch, room and epoch fit, nothing is pending, the sender is active or creates the group, and the target is active exactly for a remove |
| `MlsProgress.ProposeRefusals` | server-go/auth_store.go:770-840 | The refusal of a new proposal for each guard that fails |
| `MlsProgress.ProposeOfKnown` | server-go/auth_store.go:743-769 | What a repeated id or payload is answered |
| `MlsProgress.ReportedMembership` | server-go/auth_store.go:582-612 | A stored proposal or commit reports the stored action, target and the members before the change |
| `MlsProgress.WelcomeStoredExactly` | server-go/auth_store.go:917-1003 | A welcome is stored if and only if it is for the add that the current epoch committed, by an active sender in the group's room, and not stored yet |
| `MlsProgress.WelcomeRefusals` | server-go/auth_store.go:945-985 | The refusal of a welcome for each guard that fails |
| `MlsProgress.WelcomeOfKnown` | server-go/auth_store.go:975-990 | A second welcome for the epoch and target is a duplicate exactly if it is the stored one and conflicts otherwise; one for a proposal that was not the committed one is refused |
| `MlsProgress.AcceptStoredExactly` | server-go/auth_store.go:1005-1060 | A welcome is accepted if and only if it is pending and named by its room, proposal and digest; an accepted one is a duplicate and anything else a conflict |
| `MlsProgress.LegacyStoredExactly` | server-go/auth_store.go:410-494 | When the legacy proposal and commit are stored |
| `MlsProgress.LegacyWelcomeStoredExactly` | server-go/auth_store.go:856-915 | When the legacy welcome is stored |
| `MlsProgress.LegacyOfKnown` | server-go/auth_store.go:644-663 | On the legacy paths a known key is a duplicate exactly if the payload is the stored one and conflicts otherwise; a proposal known under another id is a duplicate |
| `MlsProgress.LegacyNamesRoom` | server-go/auth_store.go:665-692 | A stored legacy proposal or commit names a group without room and never renames one, touches neither members nor welcomes, and only a commit moves the epoch, to its own |
| `MlsProgress.StrictProgress` | server-go/auth_store.go:555-612 | From every reachable strict state with an active member and nothing pending, a proposal and a commit at the next epoch move the group on |
| `MlsProgress.EveryEpochReachable` | server-go/auth_store.go:555-612 | For every epoch up to the width of the column there is a strict history that reaches it |
| `MlsProgress.AddCompletes` | server-go/auth_store.go:702-1060 | Propose, commit, welcome and accept make the target a member since that epoch, and change nobody else's membership |
| `MlsDelivery.CommitIsRelayed` | server-go/hub.go:1403-1411 | A member's commit that changes the database is relayed to exactly the members of its proposal's snapshot other than the sender; a repeated or refused one to nobody |
| `MlsDelivery.StoredCommitReachesMembers` | server-go/hub.go:1403-1420 | In the network: after a commit was stored every such member has it on its way, the sender has its acknowledgement, and nothing else is new |
| `MlsDelivery.ProposalIsRelayed` | server-go/hub.go:1496-1510 | A member's proposal is relayed to exactly the active members other than the sender |
| `MlsDelivery.LegacyIsRelayed` | server-go/hub.go:1443-1457 | Legacy proposals and commits go to the room's members other than the sender |
| `MlsDelivery.WelcomeIsRelayed` | server-go/hub.go:1586-1595 | An acknowledged welcome goes to its target and to nobody else |
| `MlsDelivery.OneAnswer` | server-go/hub.go:1369-1654 | The sender of a packet gets exactly one answer, the acknowledgement of the right kind or an error, and with an error nothing has happened |
| `MlsDelivery.AccessRefused` | server-go/hub.go:1546-1637 | What the hub refuses before it asks the store: foreign acceptances, missing access, a welcome without proposal or with another digest |
| `MlsDelivery.LoginReplaysPending` | server-go/auth_store.go:299-335 | A login replays exactly the user's pending welcomes |
| `MlsDelivery.CommitRelayAdopted` | client-cpp/gui/src/gui_connection_worker.cpp:1510-1530 | The relay of the group's next commit in its room, once the library takes it, moves the client to exactly that epoch and is recorded; any other relay changes nothing |
| `MlsDelivery.ClientCatchesUp` | client-cpp/gui/src/gui_connection_worker.cpp:1510-1530 | Taking the server's commits in order brings a client to the server's current epoch with equal commits for every epoch on the way |
| `MlsDelivery.CatchesUp` | client-cpp/gui/src/gui_connection_worker.cpp:1510-1530 | The same over runs: if the commits a client lacks were relayed to it, delivering them in order brings it to the server's current epoch |
| `MlsDelivery.AcksAdvance` | client-cpp/gui/src/gui_connection_worker.cpp:1402-1434 | Each acknowledgement moves an operation to its next phase and sends what is due: the commit, then after adopting the epoch the welcome of an add; one that does not fit the phase is ignored |
| `MlsDelivery.UnsentEnds` | client-cpp/gui/src/gui_connection_worker.cpp:1426-1432 | A commit or welcome the connection does not take ends its operation; a committed epoch stays adopted |
| `MlsDelivery.ResetForgets` | client-cpp/gui/src/gui_connection_worker.cpp:1192-1197 | After a reset answers and peers' commits are ignored, a reconnect sends nothing and a welcome makes the client join again |
| `MlsDelivery.WelcomeJoins` | client-cpp/gui/src/gui_connection_worker.cpp:1436-1507 | A welcome makes a client outside the group join at its epoch and accept; a known one is accepted again |
| `MlsDelivery.AddStarts` | client-cpp/gui/src/gui_connection_worker.cpp:1021-1112 | When adding a member starts, for which epoch, and what it sends |
| `MlsDelivery.RemoveStarts` | client-cpp/gui/src/gui_connection_worker.cpp:1114-1190 | When removing a member starts, for which epoch, and what it sends |
| `MlsDelivery.ReconnectResends` | client-cpp/gui/src/gui_connection_worker.cpp:1291-1328 | After a reconnect every operation before its welcome phase is kept and sent again with the packet of its phase |
| `MlsRound.AddRoundCompletes` | client-cpp/gui/src/gui_connection_worker.cpp:1402-1434 | Nine steps of the network take an add from its start to the end: the server is at the new epoch with the user active, both clients are at that epoch and nothing is pending |
| `AttachmentAccess.OthersAreRefused` | server-go/attachment_store.go:222-230 | Store, resume and commit on an upload by anyone but its author, or not before its expiry, change nothing and are answered as unauthorized or expired |
| `AttachmentAccess.UnknownIsRefused` | server-go/attachment_store.go:206-222 | The same for an upload that does not exist and for a missing author |
| `AttachmentAccess.OnlyTheAuthor` | server-go/attachment_store.go:206-235 | After an upload was opened and anything else happened: every row and file it has and every published file is a chunk its author sent before the expiry, and nothing is published without the author's commit in time |
| `AttachmentAccess.NothingWithoutTheAuthor` | server-go/attachment_store.go:206-235 | Without requests of the author in time nothing is ever stored or published for the upload |
| `AttachmentAccess.InitSucceedsExactly` | server-go/attachment_store.go:128-172 | An upload is opened if and only if room and author are named, the size is 1 byte to 5 GiB and keeps the room within 20 GiB, and the ids are new; with the refusal for each size |
| `AttachmentAccess.InitLeaves` | server-go/attachment_store.go:157-204 | What opening an upload leaves behind, and that no other room is charged |
| `AttachmentAccess.StoreSucceedsExactly` | server-go/attachment_store.go:301-366 | A chunk is taken if and only if it comes from the author in time, is in range, not too large and of its digest, and does not differ from what is stored; it is fresh exactly if nothing was stored |
| `AttachmentAccess.StoreRefusals` | server-go/attachment_store.go:237-256 | The refusal of a chunk out of range, too large or with another digest |
| `AttachmentAccess.StoreLeaves` | server-go/attachment_store.go:337-366 | A taken chunk has its row and its file and nothing else has changed |
| `AttachmentAccess.ResumeSucceedsExactly` | server-go/attachment_store.go:369-412 | A resume is answered exactly to the author in time, with exactly the verified indexes in ascending order, whose rows and files stay |
| `AttachmentAccess.CommitOkExactly` | server-go/attachment_store.go:537-612 | A commit succeeds if and only if the author asks in time, nothing is published yet and rows and files are exactly the chunks of the file |
| `AttachmentAccess.ReadSucceedsExactly` | server-go/attachment_store.go:428-473 | A download succeeds if and only if the attachment is committed and the index in range, and gives the published file and the last flag |
| `AttachmentAccess.ExpiryLeaves` | server-go/attachment_store.go:505-531 | An expired upload goes with its rows, reservation and uncommitted attachment, and nothing else does |
| `DownloadAssembler.AcceptsExactly` | client-cpp/gui/src/attachments/attachment_download_assembler.cpp:66-132 | A chunk is accepted if and only if it is the next one, of its digest and length, decrypts to its length, can be written, is marked last exactly if it is, and the last one can be moved into place; any other ends the download |
| `DownloadAssembler.BeginsExactly` | client-cpp/gui/src/attachments/attachment_download_assembler.cpp:40-64 | A download begins if and only if its context is valid and the part file can be created |
| `TransferState.CallsSucceedExactly` | client-cpp/gui/src/attachments/attachment_transfer_state.cpp:7-71 | Which calls succeed in every state a transfer can be in |
| `TransferState.FreshUpload` | client-cpp/gui/src/attachments/attachment_transfer_state.cpp:7-32 | A begun and initialized transfer is uploading with nothing acknowledged |
| `TransferState.FourthFailureFails` | client-cpp/gui/src/attachments/attachment_transfer_state.cpp:73-78 | A chunk may fail three times; the fourth failure fails the transfer |
| `TransferState.AckCounts` | client-cpp/gui/src/attachments/attachment_transfer_state.cpp:49-55 | An acknowledgement counts its chunk, forgives its failures and completes the transfer exactly with the last one |
| `TransferState.StopsExactly` | client-cpp/gui/src/attachments/attachment_transfer_state.cpp:80-88 | Which transfers cancel and fail end |
| `HubOutcomes.JoinOutcome` | server-go/hub.go:926-957 | After a join the client is in the room it asked for if and only if that room is defined and public, or it is an administrator or allowed; otherwise where it was; nobody else changes room |
| `HubOutcomes.LeaveOutcome` | server-go/hub.go:1028-1045 | A leave ends in the lobby and moves nobody else |
| `HubOutcomes.CreateOutcome` | server-go/hub.go:959-978 | A new name is defined, owned by its creator and holds him if he is still connected; a taken or empty one changes nothing |
| `HubOutcomes.ActionNeedsRight` | server-go/hub.go:980-993 | Without being administrator or owner no action changes a channel or anybody's room, and nobody can change the lobby |
| `HubOutcomes.DeleteOutcome` | server-go/hub.go:993-1003 | A deleted channel is gone, everybody in it is in the lobby and everybody else where he was |
| `HubOutcomes.InviteOutcome` | server-go/hub.go:1009-1013 | An invitation puts exactly the code on the list |
| `HubOutcomes.RemoveMemberOutcome` | server-go/hub.go:1014-1025 | A removal takes exactly the code off the list and its client, if it is in the channel, to the lobby |
| `HubOutcomes.RegisterOutcome` | server-go/hub.go:484-540 | A registration is accepted exactly with a code that belongs to an account or is neither active nor in use; the accepted client holds the code in the lobby and the former holder is gone; a refused one changes nothing |
| `HubOutcomes.UnregisterOutcome` | server-go/hub.go:696-713 | The client and its code are gone, and with nobody slow nobody else is |
| `HubOutcomes.RemovalFreesCode` | server-go/hub.go:847-855 | A temporary code is free again exactly when its client is removed; an account's stays in use |
| `HubOutcomes.KickOutcome` | server-go/hub.go:615-629 | The target is gone if and only if an administrator kicks another client |
| `HubOutcomes.MuteOutcome` | server-go/hub.go:630-638 | The target's flag flips if and only if an administrator mutes another client |
| `HubOutcomes.BroadcastReachesTheRoom` | server-go/hub.go:857-864 | Every member of the room that stays connected gets the message once more and nobody else anything |
| `HubOutcomes.MovesAreAnnounced` | server-go/hub.go:950-956 | With nobody slow a change of rooms is announced once in the old room and once in the new one |
| `HubOutcomes.RegisterAnnounced` | server-go/hub.go:530-537 | With nobody slow a new client is announced once in the lobby, an administrator hears of every pending approval, and the room of a former holder of the code hears that he is gone |
| `HubNotices.RefusalsAreAnswered` | server-go/hub.go:926-993 | With nobody slow a join, creation, channel action, kick or mute that cannot be met is told to its client once, to nobody else, and changes nothing |
| `HubNotices.InviteAnswered` | server-go/hub.go:1011-1015 | With nobody slow an invitation is confirmed to whoever makes it and told to nobody else |
| `HubNotices.RemoveMemberAnswered` | server-go/hub.go:1016-1025 | With nobody slow a removal is confirmed, and the removed member is told exactly if he was in the channel |
| `HubNotices.DeleteAnswered` | server-go/hub.go:994-1005 | With nobody slow a deletion is told once to everybody in the channel and to nobody else |
| `HubNotices.KickAnswered` | server-go/hub.go:626-629 | With nobody slow a kick is told to the target, to the others in its room and to the administrator |
| `HubNotices.MuteAnswered` | server-go/hub.go:630-637 | With nobody slow muting is told to both sides and to nobody else |
| `HubNotices.ChatAnswered` | server-go/hub.go:731-803 | With nobody slow a connected author gets exactly one answer to a chat that could not be saved, and to one saved now or before exactly if he asked for a receipt |
| `HubOutcomes.UnregisterAnnounced` | server-go/hub.go:704-708 | With nobody slow everybody left in the room is told once |
| `RateLimits.DelayExactly` | server-go/connection_limits.go:35-51 | Waiting is enough to be out of debt if and only if it is at least the delay |
| `RateLimits.BurstPasses` | server-go/connection_limits.go:35-51 | A fresh budget lets 64 frames pass at once and the next one wait 1/512 s |
| `ChatModel.SerializeExactly` | client-cpp/gui/src/chat_bridge.cpp:22-40 | The serialization is the newest rows, at most 500, oldest first, each with exactly the model's roles |
| `ChatModel.BatchMerges` | client-cpp/gui/src/chat_model.cpp:53-100 | Appending a batch: the rows of an id the model does not show become one new row with the values of all of them, later over earlier; if the model shows it under a text id, that row takes them; the newest 1000 rows stay |
| `ChatModel.AppendOneExactly` | client-cpp/gui/src/chat_model.cpp:50-100 | An appended row is merged into the first row with its id, or added behind with the oldest rows making way; it always notifies |
| `ChatModel.AppendFresh` | client-cpp/gui/src/chat_model.cpp:76-99 | Rows are added behind in their order and the oldest make way |
| `ChatModel.PrependExactly` | client-cpp/gui/src/chat_model.cpp:102-128 | Rows are put in front in their order and the newest of the model make way |
| `ChatModel.FirstMatch` | client-cpp/gui/src/chat_model.cpp:142-150 | The first row with the value, or -1 if there is none |
| `ChatModel.UpdateExactly` | client-cpp/gui/src/chat_model.cpp:163-182 | Every row is merged with its values, and it notifies exactly if some value differs |
| `ChatModel.RemoveExactly` | client-cpp/gui/src/chat_model.cpp:191-195 | Exactly the rows without the value are left, in order, and it notifies exactly if there was one |
| `ChatModel.ReplaceExactly` | client-cpp/gui/src/chat_model.cpp:130-140 | The last 1000 of the new rows are kept, and it notifies exactly if they differ |
| `ConversationCache.SelectActivates` | client-cpp/gui/src/gui_chat_controller.cpp:280-284 | A selection makes the conversation active and shows its own model |
| `ConversationCache.ResetActivates` | client-cpp/gui/src/gui_chat_controller.cpp:396-399 | A reset shows the lobby's model |
| `SnapshotCache.UseChangesItsModel` | client-cpp/gui/src/gui_chat_controller.cpp:664-672 | A message changes exactly its conversation's model |
| `SnapshotCache.SelectionIsShown` | client-cpp/gui/src/chat_bridge.cpp:240-249 | A state built after a selection shows the messages of the selected conversation |

## Left out

- Field validation (character sets, lengths, base64) is reduced to the emptiness and range tests that decide a branch; normalization of user codes is done before a request reaches the model.
- Order of member lists: snapshots and relays are sets, the `ORDER BY` of the queries is dropped.
- An empty room in an MLS request is resolved to the sender's room before the model sees it.
- SQL text, migrations, driver and I/O errors, JSON parsing, TLS, sockets, logging and user-interface events.
- AES-GCM, SHA-256 and the MLS library: function parameters, an injective constructor and outcome parameters.
- Stray temporary files that a crash inside the write of one chunk can leave: the rename that makes a chunk file visible is one step.
- Disk faults on files that are already published.
- Freshness of generated upload and attachment ids is a hypothesis of `AttachmentHistory.DownloadsWhatWasSent` and `FileRoundTrip.EndToEnd`; a taken id is refused, as the table constraints do.
- Comparison of expiry times as text: the list of expired uploads is a parameter.
- MlsAgreement.ClientEpochBound: names the one family of exceptions, legacy welcomes, instead of excluding them.
- DownloadAssembler.RunTracksProgress: leaves out runs in which a deletion of the part file fails; what such a step leaves behind is `StepTracksProgress` and `PartOutlivesItsDownload`.
- UploadWindow.SlidingWindow: leaves out the two families it is false for, an accepted resume reply during the upload and a chunk skipped for lack of a connection; `ResumeStallsExactly` and `SkippedChunkNeverCommits` say what happens then.
- RateLimits.MessagesInWindow: over exact reals and non-decreasing call times, without the rounding of floating point and of nanosecond durations.
- Private messages, history, recall, connection approvals, key packages and attachment requests appear in the hub only through the deliveries they make.
- Sends from the login goroutine, which bypass the hub.
- Uploads are modelled one at a time: entries of the worker's tables that belong to other uploads are not part of the state.
- The digest that shortens the command id of a welcome acceptance: the id keeps its group and epoch in full.
- Move construction and destruction of the assembler object, and 64-bit overflow of the cache's access counter.
- Other fields of the state the bridge publishes, and the timer that limits how often it does so.
- React components, LAN discovery, the console client, launchers and performance modes: easy claims or I/O.
