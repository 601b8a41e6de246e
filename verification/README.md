# rcodex: a verified model

rcodex lets a stock Codex terminal talk to an app server on another machine through a relay. This project
models the parts of it in which state, arithmetic and interleaving decide whether it is right, and proves what
they promise.

- **Relay transport** (`src/transport.rs`). The sender cuts a large message into base64 segments and cuts it
  finer until every frame fits; the receiver puts chunks back together in whatever order they come; the
  connection numbers what it sends, drops repeats and stops at gaps in what it receives, and attributes errors
  without an id to pending requests.
- **Update installation** (`src/update.rs`, `src/main.rs`). Many processes share an executable, a backup, a
  settings file and a lock; they interleave step by step and may end anywhere.
- **Choice of a release** (`src/update.rs`), **paging and retries** (`src/api.rs`), **the broker session and its
  framing** (`src/broker.rs`, `src/main.rs`), and **the comparison of schema bundles**
  (`scripts/check_compatibility.py`).

## Layout

| files | what they hold |
|---|---|
| `Wrappers`, `JsonValues`, `Base64`, `Decimals`, `Chunking` | values: results, JSON trees and 64-bit arithmetic, base64, decimal numerals, cutting and joining byte strings |
| `Segmentation`, `SegmentationTheorems` | the sender's retry loop; when it returns and what |
| `Reassembler`, `ReassemblerRuns`, `KeyIndependence`, `RoundTrip` | the receiver's class and its accounts; independence of messages; round trip |
| `Transport`, `TransportRuns` | the connection's class; runs of sends and receipts with their history |
| `Sending`, `Epochs`, `PendingRequests`, `EndToEnd`, `Delivery` | what is sent comes back; what every run keeps and delivers |
| `AtomicWrites`, `Installation`, `UpdateProtocol`, `UpdateCommands`, `UpdateSafety`, `UpdateProgress` | writing a file as a whole, replacing and rolling back; interleaved processes, the commands as written, what all interleavings keep and what an undisturbed process gets done |
| `Versions`, `Releases` | version numerals, manifests and the search for an update |
| `Framing`, `Broker`, `Pagination`, `Retries` | lines, broker sessions, environment pages, API requests |
| `SchemaComparison`, `SchemaChanges` | the normal form of a schema and the report of changes |

Code that changes state is a class or a loop whose contract equates the new state with a function of the old one
(`ObserveStep`, `IncomingStep`, `ReplaceStep`, `AcceptStep`, ...); the theorems are about those functions and
about whole runs of them. Segmentation, reassembly, both directions of the connection, installation, framing,
paging, the retry loop, the broker loop and the schema walk are modelled that way. A `Wire` value stands for
the JSON serializer and parser. Integers are 64-bit, with saturation written out, where the source's are.

## What the code does that one might not expect

- **The retry loop can spin for ever** (`src/transport.rs:526-557`). It returns exactly if some cut fits, or
  has one-byte chunks, at a count that is reached while the chunk size still falls (`LoopReturnsIff`). Its own
  limit error needs a message of at most three bytes; any longer message whose metadata alone exceeds a frame
  makes it spin (`LimitErrorNeedsTinyMessage`). With at most 142,676 non-payload bytes a frame it always
  returns (`SegmentationTerminates`); with a plain client id longer than a frame it never does for messages
  of 4 bytes to 64 MiB (`LongClientIdSpins`). The method `SegmentClientMessage` can be called exactly where it returns.
- **Not everything that is sent is accepted** (`src/transport.rs:513`, `src/transport.rs:526`,
  `src/transport.rs:587-594`). The sender returns however many segments fit; the reassembler takes counts of 2 to
  656 only. So a message comes back if and only if it was cut into 2 to 656 segments and is an object
  (`CutMessageComesBackIff`); outside that range every segment is refused (`OtherCountsAreRefused`). Both families
  exist: one segment, when the envelope is above 100 KiB but its message is not (`SingleSegmentIsRefused`), and
  more than 656, when a long message goes with heavy metadata (`HeavyMetadataIsRefused`, `HeavyClientIdIsRefused`).
- **The reassembler alone does not deliver exactly once**: a piece repeated after completion opens a new assembly
  (`LateRepeatReopens`). The sequence check of the connection does (`EndToEndSafety`, `OutOfTurnIsNotTaken`).
- **Assembly keys are unambiguous only within a stream** (`KeyIsInjective`), or where environment ids or stream
  ids hold no colon (`ColonFreeIdsNeverCollide`); `KeysCollideIff` says exactly when two keys are one.
- **Client sequence numbers repeat once 64 bits are used up** (`ExhaustedNumberRepeats`), and only then
  (`ConnectionKeepsStreamsApart`).
- **The schema report follows Python's equality**, for which true, 1 and 1.0 are equal. A literal changed from
  one to another goes unreported (`TrueForOneGoesUnreported`). A change is missed exactly where a file in both
  bundles is equal but spells some number differently in one place (`ReportMissesIff`); nothing else is missed
  and nothing is reported in vain.
- **Retry-After departs from section 10.2.3 of RFC 9110 in two cases** (`StandardIsMetIff`): a plus sign in front
  of the number is accepted (`PlusSignIsAccepted`), and a number beyond 64 bits is not understood.
- **An error without an id stops the connection** when no request is waiting (`LosslessOrderDeliversAll`).

## Model

| member | source | states |
|---|---|---|
| Base64.DecodeEncode | src/transport.rs:601-603 | base64 (section 4 of RFC 4648) decodes to the bytes that were encoded |
| Base64.EncodeDecode | src/transport.rs:601-603 | only canonical text decodes: a decoded text is the encoding of its bytes |
| Base64.EncodedLength | src/transport.rs:541-544 | the encoding of n bytes has 4*ceil(n/3) characters |
| Base64.LettersAreStandard | src/transport.rs:541-544 | the alphabet is the standard one of RFC 4648 |
| Base64.GroupsAreNumbers | src/transport.rs:541-544 | each group of letters is the number its bytes are, most significant part first, with the right padding |
| Decimals.RenderIsDecimal | src/transport.rs:595-600 | numbers are written in decimal, most significant digit first |
| Chunking.ChunksPartition | src/transport.rs:529 | chunks are non-empty, of one size but for the last, ceil(n/size) in number, and join to the message |
| Segmentation.SegmentClientMessage | src/transport.rs:511-558 | the loop with its early exits; wherever it returns, the result is the one that RetryIsExact characterizes |
| SegmentationTheorems.FramesAreExact | src/transport.rs:511-558 | frames, if returned: the envelope itself up to 102,400 bytes; above, an exact split of its own message of at most 64 MiB in frames within 150 KiB, at least one unless the message has no bytes |
| SegmentationTheorems.EarlyErrorsAreExact | src/transport.rs:513-525 | each error before the loop has exactly its one cause |
| Segmentation.RetryIsExact | src/transport.rs:526-557 | against the loop's own passes: it is never left when reported as spinning, and is left with the reported result otherwise |
| Segmentation.ChunkSizeNeverGrows | src/transport.rs:528-556 | a retry never makes the chunks larger |
| SegmentationTheorems.LoopReturnsIff | src/transport.rs:526-557 | the loop is left if and only if a fitting or one-byte cut is reached while chunk sizes still fall; otherwise no number of passes leaves it |
| SegmentationTheorems.SegmentationTerminates | src/transport.rs:526-557 | with at most 142,676 non-payload bytes a frame the call returns, never with the metadata error, and every frame is within 150 KiB |
| SegmentationTheorems.RetryShrinks | src/transport.rs:526-557 | while a chunk is longer than there are chunks, a retry strictly shortens the chunks |
| SegmentationTheorems.LongChunksAreFew | src/transport.rs:33-36 | for messages up to 64 MiB, chunks above 8192 bytes are longer than there are chunks |
| SegmentationTheorems.FirstPassSuffices | src/transport.rs:526-552 | with at most 17,064 non-payload bytes the first pass returns, with ceil(n/100 KiB) segments, at most 656 |
| SegmentationTheorems.ReturnedSegmentsAreExact | src/transport.rs:526-552 | on any return the segments are numbered in order, agree on count and size, carry the message exactly, and leave all other fields alone |
| SegmentationTheorems.LimitErrorNeedsTinyMessage | src/transport.rs:553-556 | no message above three bytes meets the metadata error; if its metadata alone is too large the loop spins |
| SegmentationTheorems.LongClientIdSpins | src/transport.rs:526-557 | with a plain client id longer than a frame, every message of 4 bytes to 64 MiB sends the loop round for ever |
| SegmentationTheorems.FrameSize | src/transport.rs:541-549 | a frame is its metadata plus 4*ceil(len/3) |
| Reassembler.ServerMessageReassembler.Observe | src/transport.rs:574-669 | state and result are those of ObserveStep, on every exit, and the accounts stay coherent |
| Reassembler.ServerMessageReassembler.AcceptChunk | src/transport.rs:607-648 | state and result of storing one chunk, on every exit |
| Reassembler.ServerMessageReassembler.RemoveAssembly | src/transport.rs:672-676 | the assembly is gone and its bytes are given back |
| Reassembler.ObserveKeepsCoherence | src/transport.rs:574-669 | after every step the byte counter is the sum over assemblies, each accounts for its chunks and is incomplete, at most 8 and 64 MiB in all |
| Reassembler.WithoutKeepsCoherence | src/transport.rs:672-676 | giving bytes back never saturates and restores the sum |
| Reassembler.ObserveKeepsOrForgets | src/transport.rs:607-648 | a step touches one key; its assembly stays if and only if nothing came out, and any error or completion gives back all its bytes |
| Reassembler.ReadableIff | src/transport.rs:578-606 | exactly which chunks are readable, with all limits, and what is read from them |
| Reassembler.ConflictEndsTheMessage | src/transport.rs:620-628 | a readable chunk that contradicts its message in count, size or bytes at its place is an error and nothing of the message is left |
| Reassembler.NinthMessageIsRefused | src/transport.rs:607-610 | a new message is refused exactly when eight are being put together, and changes nothing |
| Reassembler.RepeatChangesNothing | src/transport.rs:624-644 | an equal repeat changes nothing |
| Reassembler.OversizedPieceEndsTheMessage | src/transport.rs:629-636 | a piece beyond its message or the shared 64 MiB is an error and ends the message |
| Reassembler.PieceIsStored | src/transport.rs:637-645 | any other piece is stored in its place; the last one missing takes all of them out |
| Reassembler.ReleasedHasAnnouncedLength | src/transport.rs:643-653 | what comes out was parsed, as an object, from all pieces in order, exactly as many bytes as announced |
| KeyIndependence.OtherKeysUntouched | src/transport.rs:595-644 | a step on one key, even one that fails, leaves every other key's assembly as it was |
| KeyIndependence.KeysAreIndependent | src/transport.rs:607-676 | in any run that does not reach the shared limits, the outcomes for a key are those of a reassembler fed only that key's envelopes |
| RoundTrip.DeliverInAnyOrder | src/transport.rs:601-669 | pieces in any order with repeats: silence until the last missing piece, then the message (or the error for one that is no object), and the buffer is as before |
| RoundTrip.MessageRoundTrip | src/transport.rs:526-669 | whatever the sender's loop returned for a message, if it is 2 to 656 segments, relabelled and delivered in any order with repeats, comes out once, as it was, under its own header |
| RoundTrip.CutMessageComesBackIff | src/transport.rs:526-669 | the sender's segments give the message back in every order if and only if they are 2 to 656 and the message is an object |
| RoundTrip.OtherCountsAreRefused | src/transport.rs:587-594 | with any other count every single segment is refused and changes nothing, whatever is buffered |
| RoundTrip.HeavyMetadataIsRefused | src/transport.rs:526-594 | with enough metadata a frame, a long message can only be cut into more than 656 segments, and each is refused |
| RoundTrip.HeavyClientIdIsRefused | src/transport.rs:526-594 | a plain client id above 100,000 bytes makes every message above 26,371,200 bytes such a case |
| RoundTrip.FirstPassComesBack | src/transport.rs:526-669 | corollary: with at most 17,064 other bytes a frame, every object above 100 KiB comes back from ceil(n/100 KiB) segments |
| RoundTrip.HeaderIsKept | src/transport.rs:654-669 | the message is delivered with the six header members of its first chunk and nothing else |
| RoundTrip.LateRepeatReopens | src/transport.rs:607-619 | a piece repeated after completion opens a fresh assembly |
| RoundTrip.SingleSegmentIsRefused | src/transport.rs:513-594 | a message up to 100 KiB in an envelope above it that fits one frame is sent as one segment, which is refused |
| Transport.RelayTransport.constructor | src/transport.rs:128-137 | a new connection has sent, seen, buffered and pending nothing |
| Transport.RelayTransport.OutgoingAppSegments | src/transport.rs:152-175 | the new state and the segments, including the reset on initialize |
| Transport.OutgoingSession | src/transport.rs:152-175 | "initialize" opens a stream with everything reset, a string or number id is queued, the number goes up by one, all else stays |
| Sending.SentFramesCarryTheMessage | src/transport.rs:152-175 | the frames for a message are one envelope that carries it, or an exact split of its bytes, under the stream and number it is due |
| Sending.SentMessageComesBack | src/transport.rs:152-669 | what was sent for a message in 2 to 656 frames is received, in any order of delivery, as that very message in its stream and under its number |
| Transport.RelayTransport.ObserveServerEnvelope | src/transport.rs:210-271 | state and result of one received envelope, on every exit |
| Transport.RelayTransport.AdmitEnvelope | src/transport.rs:210-249 | the part of it before the payload is looked at |
| Transport.ForeignEnvelopesChangeNothing | src/transport.rs:210-228 | other kinds and other streams are ignored, other clients or environments are an error, and none changes anything |
| Transport.SequenceIsExact | src/transport.rs:229-249 | the next number is let through, an earlier one dropped, a later one and missing parts are errors |
| Transport.AnonymousErrorIsAttributed | src/transport.rs:250-261 | an error without an id becomes id and error of the oldest pending request, or is an error if there is none |
| Transport.OtherPayloadsPassThrough | src/transport.rs:262-270 | every other payload is handed on as it is and takes the first pending occurrence of its id out |
| Transport.RelayTransport.FindPending | src/transport.rs:262-269 | the first pending occurrence of an id, and what removing it leaves |
| TransportRuns.HistoryFollowsTheSource | src/transport.rs:210-271 | the recorded history is made of the source's own steps and hands on exactly what they return |
| Epochs.KeyIsInjective | src/transport.rs:595-600 | within one environment and stream a key names one sequence number |
| Epochs.KeysCollideIff | src/transport.rs:595-600 | two keys are equal exactly if the numbers are and the ids are, or one environment id is the other with a colon and a text that with a colon begins the other's stream id |
| Epochs.ColonFreeIdsNeverCollide | src/transport.rs:595-600 | environment ids without a colon, or stream ids without one, keep all keys apart |
| Epochs.KeysOfDifferentStreamsCanCollide | src/transport.rs:595-600 | a pair of keys that do collide |
| Epochs.EveryRunStaysInEpoch | src/transport.rs:218-226 | at every moment of every run each stored assembly belongs to the active environment and stream |
| Epochs.EveryRunNumbersInOrder | src/transport.rs:152-175 | in each stream of a run client messages are numbered 1, 2, 3, ... up to the 64-bit limit |
| Epochs.LabelsNeverRepeat | src/transport.rs:152-175 | two messages of a run share stream and number only at the 64-bit limit |
| Epochs.ExhaustedNumberRepeats | src/transport.rs:174 | at that limit they do |
| Epochs.FramesShareLabel | src/transport.rs:166-175 | all frames of one message carry its stream and number |
| Epochs.ConnectionKeepsStreamsApart | src/transport.rs:152-226 | the three statements together, from the opening of a connection with fresh stream ids |
| PendingRequests.EveryRunBalancesRequests | src/transport.rs:153-269 | the queue is the waiting part, in order, of the ids sent in the stream; sent equals waiting plus matched plus blamed |
| PendingRequests.AnonymousErrorBlamesOldest | src/transport.rs:250-261 | an error without an id is handed on under the oldest waiting id and settles that request only |
| PendingRequests.ReplySettlesItsRequest | src/transport.rs:262-269 | a reply is handed on unchanged and settles the oldest waiting request of its id only |
| EndToEnd.ObserveCopy | src/transport.rs:574-669 | a genuine whole or partial copy only ever completes its own logged message |
| EndToEnd.SequenceExtends | src/transport.rs:229-249 | what passes the sequence check extends the accepted slice by exactly the next log entry |
| EndToEnd.EndToEndSafety | src/transport.rs:210-271 | over a channel that drops, repeats, reorders and interleaves, the payloads accepted in a stream are at every moment a contiguous slice of the server's log |
| Delivery.LosslessOrderDeliversAll | src/transport.rs:210-271 | when the next messages arrive in order, each whole or in all its pieces, they are accepted and handed on one by one and nothing stays buffered; the connection stops if and only if an error without an id finds no request waiting |
| Delivery.EnoughRequestsTakeAll | src/transport.rs:250-269 | with as many requests waiting as the messages can use up, all are taken |
| Delivery.OutOfTurnIsNotTaken | src/transport.rs:233-244 | a whole repeat changes nothing; a gap ends the connection with nothing more accepted |
| Installation.Installation.Replace | src/update.rs:243-256 | files and result for every place where a write can be cut short |
| Installation.Installation.Rollback | src/update.rs:258-265 | likewise for a rollback |
| AtomicWrites.Entry.AtomicWrite | src/update.rs:192-207 | the steps of a write, as far as they get: create, append, set mode, sync, rename, sync the directory |
| AtomicWrites.WriteIsAtomic | src/update.rs:192-207 | after any number of steps, for other processes and after a loss of power, the target is the old one or the whole new content; surely old before the rename, surely new after the last step |
| AtomicWrites.WriteSettles | src/update.rs:192-207 | a completed write leaves nothing that a loss of power could take back |
| AtomicWrites.UnsyncedRenameTears | src/update.rs:202-205 | without the sync before the rename any content could be found |
| AtomicWrites.WrittenIsItsSteps | src/update.rs:192-207 | seen from outside a write of any number of steps is one of three events |
| Installation.ReplacementSurvivesPowerLoss | src/update.rs:243-256 | at every step of a replacement the executable is wholly old or wholly new, and once it is new the backup is the old one, for other processes and after a loss of power |
| Installation.RollbackAfterPowerLoss | src/update.rs:243-265 | a replacement cut short anywhere that changed the executable is undone by a rollback |
| Installation.ReplacementIsItsSteps | src/update.rs:243-256 | those steps are the replacement operation with its writes cut short where they were |
| Installation.ReplacementIsAtomic | src/update.rs:243-256 | over the events of its writes: a changed executable implies the lock was exclusive, the content verified and the old one in the backup; success means both files are new |
| Installation.OutcomesAreExact | src/update.rs:243-265 | replacement and rollback succeed exactly with an exclusive lock, regular files, size and digest as in the asset and no fault; asked in vain they change nothing |
| Installation.RollbackUndoesReplacement | src/update.rs:243-265 | a rollback after any replacement that took effect restores the old executable |
| UpdateSafety.EveryRunIsSound | src/main.rs:220-328 | in every interleaving exclusive locks exclude, what each process relies on holds, and recorded checks are an interval apart |
| UpdateSafety.ChangeIsExclusive | src/update.rs:217-265 | the executable changes only in exclusive hands; an update only once the old one is the backup, a rollback only to the backup |
| UpdateSafety.SessionPinsExecutable | src/main.rs:569 | while a session holds its shared lock the executable does not change, whatever the others do |
| UpdateSafety.RollbackBringsBack | src/update.rs:243-265 | a rollback after an update restores the earlier executable if the backup was left alone in between |
| UpdateSafety.ChecksAreADayApart | src/main.rs:306-322 | recorded automatic checks between two enables are at least 86,400 seconds apart |
| UpdateSafety.DisabledStaysDisabled | src/main.rs:223-260 | after a disable or rollback, until an enable is written, nothing enables, checks or updates automatically |
| UpdateSafety.DisableTakesEffect | src/main.rs:241-260 | the write of a disable or rollback leaves the settings disabled and the last check as it was |
| UpdateProgress.StepsAreReplacement | src/update.rs:243-256 | the interleaved backup and install steps are the replacement operation, for every fault |
| UpdateProgress.StepIsRollback | src/update.rs:258-265 | the restore step is the rollback operation, for every fault |
| UpdateProgress.UndisturbedUpdateCompletes | src/main.rs:306-328 | a due update alone stamps the settings, backs up, installs and restarts, changes nothing else, and is then no longer due |
| UpdateProgress.UndisturbedRollbackCompletes | src/main.rs:241-250 | a rollback alone disables updates and restores the backup |
| UpdateProgress.BusyInstallationIsLeftAlone | src/update.rs:228-233 | beside a running session an update gives way to a session of its own, and a command ends |
| UpdateCommands.Machine.AutomaticUpdate | src/main.rs:306-328 | the command as written, with its early exits and write faults, does to the machine what its steps do, and reports an update exactly if it installed one |
| UpdateCommands.Machine.RunUpdate | src/main.rs:223-270 | likewise for enable, disable and rollback |
| UpdateCommands.CommandsAreSound | src/main.rs:220-328 | run without interruption each command is one of the interleavings and keeps what they keep |
| UpdateCommands.UpdateOnItsDay | src/main.rs:306-328 | enabled and never checked, or last 86,400 seconds ago or more, an undisturbed update stamps the time, backs up and installs |
| UpdateCommands.UpdateOnAnotherDay | src/main.rs:306-321 | on any other day, disabled or without readable settings, it changes nothing |
| UpdateCommands.UpdateWhileLocked | src/main.rs:313-315 | with the installation locked by anybody it changes nothing |
| UpdateCommands.UndisturbedEditCompletes | src/main.rs:223-270 | enabling forgets the last check, disabling keeps it, rolling back also restores the backup |
| UpdateCommands.EditGivesUp | src/main.rs:223-225 | with a lock in the way or unreadable settings an edit changes nothing |
| UpdateCommands.EnabledIsDue | src/main.rs:226-243 | right after a completed enable an update is due, whenever the last check was |
| UpdateCommands.UndisturbedInstallCompletes | src/main.rs:272-296 | an install backs up and replaces, whatever the settings say, and leaves them |
| Versions.ParseShow | src/update.rs:43-49 | every version is parsed from its spelling |
| Versions.ShowParse | src/update.rs:43-49 | a version has one spelling only |
| Versions.NewerIsPrecedence | src/update.rs:93 | versions compare by major, minor and patch number, from left to right (section 11 of Semantic Versioning 2.0.0) |
| Releases.Validate | src/update.rs:52-84 | succeeds exactly for well-formed manifests |
| Releases.AcceptedManifest | src/update.rs:52-84 | the limits, names, targets and digests of an accepted manifest |
| Releases.Select | src/update.rs:86-101 | picks an asset exactly if one is offered for newer version, equal Codex versions and target |
| Releases.OfferIsUnique | src/update.rs:69-101 | at most one asset can be offered |
| Releases.Retain | src/update.rs:407-415 | keeps exactly the newer stable releases |
| Releases.RetainedIff | src/update.rs:407-415 | considered are exactly the releases that are no drafts, no prereleases and tagged v with a newer version |
| Releases.SortIsCorrect | src/update.rs:416-418 | the order is descending and keeps every release |
| Releases.Examine | src/update.rs:419-448 | one release is an error exactly if it is broken; otherwise it is passed over with nothing to select, or chosen |
| Releases.Find | src/update.rs:389-451 | a found release has nothing selectable above it; none means none is selectable; an error names its cause; a broken release is never passed over for an older one |
| Releases.FoundIsNewest | src/update.rs:389-451 | the found release is newer than the installed one and the greatest version among all selectable ones |
| Framing.FrameReader.ReadFrame | src/main.rs:501-518 | one frame and the input that is left |
| Framing.FrameReader.ReadLocalAppMessages | src/transport.rs:449-483 | the app messages of the input up to its end, the first line over the limit or the first line that is not JSON, and which of these it was |
| Framing.FramesAreLines | src/main.rs:501-518 | for any input the frames are the newline-delimited lines, trimmed, up to the first line over the limit |
| Framing.WriteFrame | src/main.rs:520-537 | the payload and a newline are appended exactly if it is within the limit |
| Framing.ReadWritten | src/transport.rs:449-502 | reading inverts writing for payloads without newline that do not end in a carriage return |
| Framing.SurvivesIffFramable | src/transport.rs:449-502 | a payload within the limit survives if and only if it is of that kind |
| Pagination.EnvironmentListing.AcceptEnvironmentPage | src/api.rs:251-276 | a page is taken exactly if it is acceptable; a rejected page leaves list and cursors unchanged |
| Pagination.AcceptableIff | src/api.rs:251-274 | exactly which pages are acceptable, with all limits |
| Pagination.ListEnvironments | src/api.rs:90-118 | at most 33 pages against every server; success exactly if the answers complete, with all items in order, at most 100 |
| Pagination.CompletionIsUnique | src/api.rs:90-118 | the answers complete at one place only |
| Retries.SendWithStatusPolicy | src/api.rs:199-248 | at most five requests and ninety seconds for every server; the last reply alone decides the result |
| Retries.GoesOnIff | src/api.rs:222-243 | a reply is followed up exactly if it is the first 401, or 429 or 5xx with fewer than three such before |
| Retries.RetriesAreCounted | src/api.rs:227-241 | retries count the replies 429 and 500 to 599 |
| Retries.WaitsAreExact | src/api.rs:231-241 | a retry waits what an understood Retry-After asks, at most thirty seconds, otherwise 250, 500 and 1000 milliseconds; a refresh does not wait |
| Retries.RetryAfterIsExact | src/api.rs:313-316 | a header is understood as a wait exactly if it spells a number within 64 bits (blanks around, zeros and one plus sign in front), and the wait is that number, at most thirty |
| Retries.StandardIsMetIff | src/api.rs:313-316 | the parser agrees with delta-seconds of RFC 9110 on a text if and only if it is neither a plus sign before a 64-bit number nor a number beyond 64 bits |
| Retries.PlusSignIsAccepted | src/api.rs:313-316 | every number up to thirty with a plus sign is understood though it is no delta-seconds |
| Retries.RetryAfterOfSeconds | src/api.rs:313-316 | the usual spelling of a number is understood, that of a negative number is not |
| Broker.BrokerSession.Accept | src/broker.rs:279-307 | the new session and the result; a refusal leaves the session unchanged |
| Broker.DecodeIff | src/broker.rs:366-394 | exactly which frames decode |
| Broker.HostIdIff | src/broker.rs:406-424 | a host id is up to 128 bytes, not blank, without control characters |
| Broker.RunBroker | src/main.rs:344-411 | for any input bytes: one response for each line in order until an open succeeds, which is the last, or the input ends, or a line is too long, where it fails |
| Broker.AcceptanceIsExact | src/broker.rs:279-307 | a request is accepted if and only if it decodes, its id is new among accepted ones, and it is a handshake exactly when it is the first |
| Broker.AcceptedRequests | src/broker.rs:279-307 | accepted ids are pairwise distinct and the first accepted request is the only accepted handshake |
| Broker.RefusalChangesNothing | src/broker.rs:279-307 | refused and undecodable frames leave the session as it was |
| Broker.AnsweredUnderOwnId | src/main.rs:352-411 | each frame is answered under its own id, 0 if it cannot be decoded |
| Broker.AcceptedReplies | src/main.rs:372-408 | each kind of accepted request is answered in its own way, with the relay's hosts or its code |
| Broker.RefusedReplies | src/main.rs:353-371 | everything else is answered as an invalid request |
| SchemaComparison.Normalize | scripts/check_compatibility.py:29-48 | the walk that fills dictionaries and lists computes the normal form of the rows below |
| SchemaComparison.NormalizeNames | scripts/check_compatibility.py:39-40 | the same for the schemas under a mapping keyword, keeping every name |
| SchemaComparison.MemberByKeyword | scripts/check_compatibility.py:31-47 | what becomes of a member of an object under each keyword, all keywords spelled out |
| SchemaComparison.NormalFormsAreExact | scripts/check_compatibility.py:29-48 | two documents have one normal form if and only if they are related by the least congruence that ignores documentation at schema positions |
| SchemaComparison.NormalizedIsIdempotent | scripts/check_compatibility.py:29-48 | normalizing twice is normalizing once |
| SchemaComparison.DerivedNormalizeAlike | scripts/check_compatibility.py:29-48 | every derivation in the congruence is respected by the normal form |
| SchemaChanges.PythonEqualIsNumeric | scripts/check_compatibility.py:61 | Python's equality of parsed JSON is equality once booleans and floats are read as numbers |
| SchemaChanges.NumbersCompareByValue | scripts/check_compatibility.py:61 | numbers compare by value and booleans as 0 and 1 |
| SchemaChanges.ComparisonIsExact | scripts/check_compatibility.py:51-62 | two files compare equal if and only if they are the same schema up to the spelling of numbers |
| SchemaChanges.ReportIsExact | scripts/check_compatibility.py:51-62 | the changes are exactly what was removed, added and changed in that sense |
| SchemaChanges.EmptyReport | scripts/check_compatibility.py:51-62 | it is empty if and only if the bundles have the same files, each the same schema in that sense |
| SchemaChanges.TrueForOneGoesUnreported | scripts/check_compatibility.py:61 | a literal changed from true to 1 is not reported |
| SchemaChanges.SameSchemaIff | scripts/check_compatibility.py:61 | two files are the same schema if and only if Python finds them equal and equal numbers in them are spelled alike |
| SchemaChanges.ReportMissesIff | scripts/check_compatibility.py:51-62 | the report misses a change exactly where a common file is equal but not spelled alike, and never reports one that is none |
| SchemaChanges.ReportLines | scripts/check_compatibility.py:59-62 | the printed lines are those of the changes, each once, in ascending order |
| SchemaChanges.PrintedReport | scripts/check_compatibility.py:59-62 | the words of each line, and that no others are printed |
| SchemaChanges.ReportIsUnique | scripts/check_compatibility.py:62 | so the printed report is determined |

## Left out

- AtomicWrites.Entry.AtomicWrite: the permission bits set on the temporary file are not modelled, only that setting them comes before the sync.
- RoundTrip.FirstPassComesBack: frame bounds are stated on the serialized size of a segment without payload, because JSON text syntax is not modelled; all that is used of the serializer is that a string of characters that need no escape costs its length.
- UpdateSafety.EveryRunIsSound: files are regular files and processes restart in one step here; links, directories and missing executables are covered by `Installation`, and loss of power during a write by `AtomicWrites`. The state machine of interleavings is on values; the commands themselves are methods of `UpdateCommands.Machine`.
- EndToEnd.EndToEndSafety: safety only; that messages do arrive is proved for a channel that keeps order and loses nothing (`LosslessOrderDeliversAll`), since late repeats can occupy assembly slots and lost chunks never arrive.
- Broker.RunBroker: what the relay answers to a pairing, a listing or an open is a parameter; bytes already buffered by the broker's reader when the bridge takes over are not followed.
- Releases.Find: the list of releases and each signed manifest are parameters that may be errors; why a download or its provenance failed is not modelled; asset digests enter as a parameter of `Replace`.
- SchemaChanges.PythonEqualIsNumeric: floats are real numbers; Python's NaN and infinities are not modelled.
- JSON parsing of requests and messages, including the normal form of pairing codes, is a parameter.
- Fresh stream ids are a parameter; that they are fresh is an assumption of the rows about labels.
- The app-message reader's own reader going away, sockets, TLS, HTTP, timeouts, clocks beyond a non-decreasing time, process spawning and query strings.
- `usize` is taken to be 64 bits wide; the overflow check on the number of environments cannot fire within memory.
- The server's `cursor` field is copied but not interpreted, as in the source.
- Attestation, device keys, OAuth, enrolment and the state and authentication files (`src/auth.rs`, `src/state.rs`, `src/oauth.rs`, `src/device_key.rs`, `src/controller.rs`, `src/relay.rs`): field checks and foreign calls.
- The local shim, version pinning and the classification of error texts (`src/shim.rs`, `src/compatibility.rs`, `src/main.rs:488-499`): thin.
