# The bot API server's stateful cores, modelled and proved

A Dafny 4.11 model of the parts of a Telegram Bot API server that hold state, speak a
protocol or encode and decode, with proofs of what they promise. `dafny verify dfyconfig.toml`
checks all of it. Where the source's comments and its code differ, the model follows the code.

| files | what they model |
|---|---|
| `QueueSpec`, `QueueLaws`, `UpdateQueue`, `UpdateStore` | one bot's update queue and the table of rows behind it: event ids, get, forget, clear, trim, collect, push, load and replay. The classes are the source's locked sections and loops, proved against functions on values |
| `QueueProtocol`, `QueueSafety`, `QueueRestart` | the same sections and storage calls as steps of any number of threads, in any order, with failing storage, store-side collection and crashes; invariants over every run; starts without rows |
| `Delivery`, `DeliveryProgress`, `BotProtocol`, `BotLoss` | a bot that polls with offset last + 1: what it receives over whole runs, alone with a queue and among the threads of the server; how many fetches bring everything; the run in which it loses an update |
| `LongPoll`, `WebhookState` | one long poll at a time, conflicts and cleanup; one setWebhook at a time; pending-updates warnings |
| `Base64`, `Rle`, `Wire`, `Decimal`, `Conversions`, `FileId`, `FileIdProofs`, `FileIdCodec`, `FileIdBytes`, `UniqueId`, `InlineId` | file_id, file_unique_id and inline_message_id: layouts down to the byte, encoders on a buffer, the decoder on a cursor, and round trips |
| `JsonScanner`, `JsonText`, `JsonFailures`, `JsonCuts`, `JsonLoops`, `EscapeJson`, `JsonAscii` | the hand-written JSON scanner and the ASCII rewriter, against the grammar of RFC 8259 |
| `CacheSpec`, `MsgCache` | the LRU message cache with its reverse media index, against its history of puts and gets |
| `Format`, `FormatProofs`, `FormatRoundTrip`, `FormatStyles` | the Markdown and HTML entity parsers, against printing and against a parser that looks at one style at a time |
| `FloodGate` | the upload token bucket |
| `Chunks`, `ChatId` | upload and download loops; the chat_id codecs |

A class method is tied to a function of the old state; runs are sequences of steps from the
empty state. Ghost parameters such as `q0` or `s` name the state before a call. Errors are
`Option` or `Result` values; error texts are not modelled. JSON text is a sequence of bytes
written as characters; text with entities is a sequence of code points.

Where the code does not do what its name or comment promises, the exact condition is proved:

- `Next` tests for overflow after adding, so at the largest int32 a negative id is handed out
  (`QueueSpec.NextIDMonotonic`); only such a push leaves a valid queue invalid
  (`UpdateQueue.Queue.AssignLocked`).
- After a restart ids go on above the largest row that is left, not above the last id given
  out (`QueueSafety.RestartTail`). The polling bot keeps its offset: a crash leaves the tail
  below it exactly if no row with the bot's last id or a larger one is left
  (`BotProtocol.FallsBackIff`), as when everything it was sent is confirmed and deleted; then
  the next update is forgotten unread (`Delivery.FirstAfterRestart`, `BotLoss.LostAfterRestart`).
- If the rows cannot be read the server starts all the same, which is harmless exactly if
  there were none; otherwise ordinary pushes reach the id of a row that is left and store a
  second row under its key (`QueueRestart.UnreadStart`).
- `LoadAll` says it orders by queue and event; it orders by log id. Replay does not depend on
  the order (`QueueSafety.ReplayOrderIrrelevant`).
- An update larger than the answer's budget blocks every later one for as long as it is live
  and has not expired (`DeliveryProgress.OversizedBlocks`); as many fetches as updates are waiting bring all of them
  exactly if none is so large (`DeliveryProgress.AsManyAsWait`).
- The array loop of `skipJSONValue` never ends where an item starts with `}`
  (`JsonText.Progress`); a scan never ends exactly if it meets one, and `parseJSONObject` never
  returns exactly if a member's value does (`JsonLoops.EndlessIff`, `JsonLoops.ObjectLoopsIff`).
- `\u` escapes are not decoded, so a string is read as the standard asks exactly if it holds
  none (`JsonText.DecodedIsStandard`).
- A byte string of 2^24 bytes or more does not come back (`Wire.ReadPaddedBack`), a thumbnail
  type outside ASCII changes the unique id (`UniqueId.ThumbnailAgrees`), and a conversion with
  a negative zoom panics (`Conversions.TileBack`).
- The `-100` prefix and the number -10^12 do not classify the same chat ids: they agree exactly
  on basic groups below 10^12 whose decimal does not start with 100 and on numbers from 10^12
  to 10^12 + 10^10, exclusive (`ChatId.CodecsAgree`). Each has its own exact domain
  (`ChatId.PrefixRoundTrip`, `ChatId.ResolveRoundTrip`, `ChatId.ThresholdRoundTrip`).
- `itoa` prints the least 64-bit integer as a lone minus sign (`FloodGate.Itoa`).
- An empty run between two `*` or `_` prints as the double token: printed runs parse back to
  the text and their entities exactly if none is of that kind, wherever it would stand
  (`FormatRoundTrip.RoundTrip`).
- A comment on the upload threshold says "larger than" 10 MiB; the code counts 10 MiB itself
  as big.

## Model

| member | source | states |
|---|---|---|
| QueueSpec.NextIDMonotonic | internal/tqueue/tqueue.go:145-154 | the next id is above hint and tail and at most the maximum, exactly when the hint is not the largest int32, where it is negative; the queue reports full exactly from the maximum on |
| QueueSpec.AssignValid | internal/tqueue/tqueue.go:162-173 | storing under a new id and trimming keeps the queue valid and at or below its cap, keeps the new event, and touches no old event that stays |
| QueueSpec.TrimSparesNewest | internal/tqueue/tqueue.go:170-172 | the cap takes older events only and leaves at most the cap |
| QueueSpec.ClearKeepsNewest | internal/tqueue/tqueue.go:341-357 | clear leaves exactly the newest keepCount events, or all if there are fewer |
| QueueSpec.SortedListUnique | internal/tqueue/tqueue.go:231-237 | sorting the ids of a map, met in any order, has one outcome |
| QueueLaws.BatchExact | internal/tqueue/tqueue.go:230-248 | a read returns exactly the events above an id that have no expiry or one not before now, ascending with their contents, and leaves out only what is above its limit |
| QueueLaws.DropsExactly | internal/tqueue/tqueue.go:264-292 | which events stay after confirming, forgetting one and collecting, in terms of ids and expiry times |
| QueueLaws.StoreKeepsExactly | internal/storage/tqueue.go:184-195 | the store deletes exactly the rows with an expiry before now |
| QueueLaws.PopsExactly | internal/tqueue/tqueue.go:280-292 | the log ids to delete are those of the dropped events that have one |
| QueueLaws.NextExactly | internal/tqueue/tqueue.go:145-154 | the next id is one above the larger of hint and tail, and there is none from 2,000,000,000 on |
| QueueLaws.CapExactly | internal/tqueue/tqueue.go:170-172 | a push leaves one event more, or 100,000 with the oldest gone |
| QueueLaws.WholeCollection | internal/tqueue/tqueue.go:406-435 | a collection that nothing interferes with visits every queue and leaves each without exactly its expired events |
| UpdateQueue.Queue.RecomputeHead | internal/tqueue/tqueue.go:295-302 | head is the least live id, or 0 |
| UpdateQueue.Queue.ForgetUpToLocked | internal/tqueue/tqueue.go:280-292 | drops exactly the events up to the id, and returns exactly their log ids |
| UpdateQueue.Queue.CollectLocked | internal/tqueue/tqueue.go:420-431 | drops exactly the expired events, returns exactly their log ids and how many they were |
| UpdateQueue.Queue.TrimOldestLocked | internal/tqueue/tqueue.go:306-326 | drops exactly the count oldest events, and returns exactly their log ids |
| UpdateQueue.Queue.ClearLocked | internal/tqueue/tqueue.go:340-359 | drops all but the newest keepCount events, returns exactly their log ids and the dropped records, oldest first |
| UpdateQueue.Queue.ForgetLocked | internal/tqueue/tqueue.go:264-270 | drops the one event if it is there and returns its log id |
| UpdateQueue.Queue.GetLocked | internal/tqueue/tqueue.go:230-248 | the first limit unexpired events above an id, ascending, with nothing changed |
| UpdateQueue.Queue.AssignLocked | internal/tqueue/tqueue.go:144-173 | the first locked section of a push with any hint: a new record under the next id, capped, or nothing at all if the queue is full or the payload cannot be built; the queue stays valid except with the largest int32 as hint |
| UpdateQueue.Queue.RecordOrUndoLocked | internal/tqueue/tqueue.go:182-190 | the log id is kept if the very record is still there, otherwise the row is to be deleted again |
| UpdateStore.TQueueStore.Push | internal/storage/tqueue.go:126-135 | a row under a log id never used before, or 0 and no change |
| UpdateStore.TQueueStore.Pop | internal/storage/tqueue.go:138-142 | deletes exactly the row of the log id |
| UpdateStore.TQueueStore.PopAll | internal/tqueue/tqueue.go:464-471 | deletes exactly the rows of the log ids |
| UpdateStore.TQueueStore.GC | internal/storage/tqueue.go:186-195 | deletes exactly the expired rows and says how many |
| UpdateStore.TQueueStore.LoadAll | internal/storage/tqueue.go:147-182 | batches behind a moving log id read every row once, in order of log id |
| UpdateStore.SelectIsNext | internal/storage/tqueue.go:152-156 | a batch behind the k-th row is the next slice of all rows |
| UpdateStore.ReplayLoop | internal/tqueue/tqueue.go:443-461 | the loop over loaded rows computes the replay function |
| UpdateStore.PushWithData | internal/tqueue/tqueue.go:132-194 | a whole push with any hint: event, cap, deleted rows of trimmed events, the row and its log id, or no row if the cap took the event itself |
| UpdateStore.PushKeepsEvent | internal/tqueue/tqueue.go:132-194 | after a push with any other hint the event is in the queue with its log id, its row is stored, and the queue is at or below its cap |
| UpdateStore.RecordOrUndo | internal/tqueue/tqueue.go:182-190 | after the last step of a push the row is recorded at its event or gone |
| QueueSafety.StepSafe | internal/tqueue/tqueue.go:132-435 | every step of every thread, every storage call and a crash keep the invariant: one owner for every log id, no two rows or pushes in flight with one key |
| QueueSafety.Run | internal/tqueue/tqueue.go:132-435 | every run of steps ends in a safe state |
| QueueSafety.EveryRun | internal/tqueue/tqueue.go:132-194 | in every run: each row belongs to a live event with that log id, to a pending or failed pop, or to a push before its record step; each stored live event has its row; late pops hit nothing live; no two rows share a key; a restart restores what is stored and no more |
| QueueSafety.QuiescentAgreement | internal/tqueue/tqueue.go:202-226 | once all calls have finished and no pop failed, rows and live events with a log id agree, up to what the store has collected as expired |
| QueueSafety.CrashReplays | internal/tqueue/tqueue.go:443-461 | loading and replaying gives back exactly the rows, with valid heads and tails at the largest ids |
| QueueSafety.ReplayDetermined | internal/tqueue/tqueue.go:443-461 | what a replay must hold determines it |
| QueueSafety.ReplayOrderIrrelevant | internal/storage/tqueue.go:152-156 | any order of the rows replays to the same queues |
| QueueSafety.RestartTail | internal/tqueue/tqueue.go:457-459 | a restart keeps the tail exactly if the row of the last id given out is left, and never raises it |
| QueueRestart.UnreadStart | internal/manager/manager.go:63-70 | starting without reading the rows is safe exactly if there were none, and exactly then every run of steps whose hints are 0 keeps the keys of rows unique |
| QueueRestart.RunIsFromInit | internal/tqueue/tqueue.go:132-435 | the runs from such a start are made of the same steps as the runs of the empty server |
| QueueRestart.KeyRepeats | internal/tqueue/tqueue.go:143-182 | otherwise pushes with hint 0, each confirmed by the bot, up to the id of a row that is left, and one push more, store two rows under one key |
| QueueRestart.CyclesEffect | internal/tqueue/tqueue.go:143-182 | by induction: after n pushes and confirmations the queue is empty, gives out n + 1 next, and has touched no other row |
| Delivery.EventsToRaw | internal/client/getupdates.go:230-241 | the loop computes the cut of a batch by its budget |
| Delivery.RawIsLongest | internal/client/getupdates.go:230-241 | what is sent is the longest prefix below the budget |
| Delivery.Fetch | internal/client/getupdates.go:97-158 | one fetch confirms the offset if it is to forget, answers with the batch above it in either case, and leaves exactly the confirmed rows to be deleted |
| Delivery.Run | internal/client/getupdates.go:97-158 | the bot's invariant holds after every run |
| Delivery.ExactlyOnceInOrder | internal/client/getupdates.go:97-158 | over every run, with answers that get lost, any clock, removals by others and restarts, unless a restart left the tail below the last id: the bot receives strictly increasing ids, each of which was pushed with that payload, and what was pushed and not received is live above all it has, expired or discarded |
| DeliveryProgress.EmptyAnswer | internal/client/getupdates.go:227-241 | an answer is empty exactly if nothing unexpired is live above last or the first such update alone exceeds the budget |
| DeliveryProgress.AskConserves | internal/client/getupdates.go:140-158 | what is delivered followed by what is waiting is the same before and after a fetch, whether or not it forgets or arrives |
| DeliveryProgress.FetchExactly | internal/client/getupdates.go:97-148 | a fetch that forgets takes exactly the events up to last, and their rows; any other takes nothing |
| DeliveryProgress.AskExactly | internal/client/getupdates.go:97-148 | so what the bot's queue holds after it asks |
| DeliveryProgress.AnswerExactly | internal/client/getupdates.go:227-241 | the answer is as much of the batch above last, from its start, as stays below 4 MiB |
| DeliveryProgress.AskProgress | internal/client/getupdates.go:227-241 | a fetch that arrives brings something exactly if something is waiting and the first of it can be sent, and then last goes up |
| DeliveryProgress.AsManyAsWait | internal/client/getupdates.go:227-241 | by induction: as many fetches as there are updates waiting, of any sizes, bring exactly all of them in order, if and only if none is too large |
| Delivery.RestartKeeps | internal/tqueue/tqueue.go:443-461 | a restart that brings back stored events keeps the invariant; it falls back exactly if its tail is below last |
| Delivery.RestartForgets | internal/tqueue/tqueue.go:443-461 | events whose ids a restart gives out again had not been stored, had expired, or were discarded before |
| Delivery.WhyDiscarded | internal/tqueue/tqueue.go:162-173 | an event is discarded only by the cap of a full queue, by a removal that names it, or by a restart before it was stored |
| DeliveryProgress.OversizedBlocks | internal/client/getupdates.go:230-241 | while an update too large to be sent is live and unexpired, no run of any steps delivers it or anything above it, and if it is the first above last, none without a restart delivers anything |
| Delivery.FirstAfterRestart | internal/tqueue/tqueue.go:144-173 | the first event pushed after a restart survives the bot's next fetch exactly if the tail did not fall below last |
| BotProtocol.CrashIsRestart | internal/tqueue/tqueue.go:443-461 | what the server replays after a crash, whatever it interrupts, is a restart of the polling bot |
| BotProtocol.MoveCouples | internal/tqueue/tqueue.go:200-226 | every step of every thread, every fetch of the bot and every crash keeps the coupling: the bot's queue is the server's, and every row and push in flight is in its history |
| BotProtocol.RunWorld | internal/client/getupdates.go:97-158 | so the coupling holds after every run of server and bot together |
| BotProtocol.EveryWorldRun | internal/client/getupdates.go:97-158 | over every interleaving of fetches, pushes, removals, collections, failing storage and crashes that has not fallen back: strictly increasing ids, each pushed with that payload, and what was pushed and not received waits on the server, has expired or was discarded |
| BotProtocol.FallsBackIff | internal/tqueue/tqueue.go:443-461 | only a crash leaves the tail below the bot's last id, exactly if no row of the queue has that id or a larger one |
| BotProtocol.AskAnswers | internal/tqueue/tqueue.go:218-226 | the bot is given what the server's own queue answers |
| BotLoss.LostAfterRestart | internal/client/getupdates.go:97-158 | a run: an update delivered, confirmed and deleted, a crash, the next update pushed and stored under id 1 again, and the fetch that forgets it unread |
| LongPoll.StepSafe | internal/client/getupdates.go:110-225 | every step keeps: the slots agree, pollers outside are signalled, undelayed conflicts are spaced |
| LongPoll.Run | internal/client/getupdates.go:110-225 | every run ends in such a state |
| LongPoll.OneLongPoll | internal/client/getupdates.go:116-127 | at most one undisturbed long poll, it is the registered one; any other can end at once; the slots are empty when all are done |
| LongPoll.NewPollStarts | internal/client/getupdates.go:116-127 | a new long poll is registered and undisturbed, and no other is told but the one it replaces |
| LongPoll.NewerStaysRegistered | internal/client/getupdates.go:128-138 | a finishing poller never unregisters another one |
| LongPoll.RegisteredUntil | internal/client/webhook_handlers.go:182-184 | setWebhook signals the registered poller and leaves it registered |
| LongPoll.ConflictsSpaced | internal/client/getupdates.go:206-212 | undelayed conflicts are at least three seconds apart, whatever the clock does |
| LongPoll.AbortSafe | internal/client/getupdates.go:198-225 | an abort signals exactly the registered poller: by its channel if there is room, else by cancelling |
| LongPoll.AbortSends | internal/client/getupdates.go:198-225 | after any run: the conflict an abort sends is undelayed exactly if three seconds have passed since the last such one, else three seconds late; with one waiting it cancels |
| LongPoll.Coordination.AbortLongPollLocked | internal/client/getupdates.go:198-225 | the fields and the poller after an abort |
| LongPoll.Coordination.Register | internal/client/getupdates.go:116-127 | the new poller holds both slots and the old one is signalled |
| LongPoll.Coordination.Unregister | internal/client/getupdates.go:132-137 | the slots are emptied only if they are the poller's own |
| WebhookState.EveryRun | internal/client/webhook_handlers.go:151-177 | one setWebhook at a time and a second apart; warnings thirty seconds after every earlier report; an all-clear answers exactly one warning |
| WebhookState.StepSafe | internal/client/webhook_handlers.go:347-371 | each step keeps that |
| WebhookState.LetInIff | internal/client/webhook_handlers.go:151-172 | after any run a call is let in exactly if none runs and a second has passed since the last one that was |
| WebhookState.ReportedIff | internal/client/webhook_handlers.go:347-371 | after any run a failure is reported exactly with 200 or more pending and half a minute after the last success or warning, and a success exactly after a warning |
| WebhookState.Client.BeginSetWebhook | internal/client/webhook_handlers.go:151-172 | a call is let in exactly if none runs and the second has passed |
| WebhookState.Client.EndSetWebhook | internal/client/webhook_handlers.go:172-176 | the end of a call lets the next one in |
| WebhookState.Client.DeliveryStatus | internal/client/webhook_handlers.go:347-371 | flag, deadline and report after a delivery status |
| Rle.RleEncode | internal/fileid/fileid.go:909-925 | the nested loops compute zero-run compression |
| Rle.RleDecode | internal/fileid/fileid.go:927-943 | the loop computes expansion |
| Rle.RoundTrip | internal/fileid/fileid.go:909-943 | expanding inverts compressing, with runs beyond 250 |
| Rle.LastByte | internal/fileid/fileid.go:568-576 | a last byte that is not zero stays the last byte, so the version byte can be tested before expanding |
| Rle.CompressInjective | internal/fileid/fileid.go:909-925 | different data compress differently |
| Rle.Canonical | internal/fileid/fileid.go:909-925 | the compressed form by equations: other bytes as they are, up to 250 zeros as a zero and their number, of a longer run 250 first |
| Rle.Shortest | internal/fileid/fileid.go:909-925 | no other way of writing the data with counts from 1 to 250 is shorter |
| Rle.CompressCounted | internal/fileid/fileid.go:911-918 | every count written is from 1 to 250 |
| Base64.RoundTrip | internal/fileid/fileid.go:905-907 | decoding inverts encoding in both alphabets, padded or not |
| Base64.EncodeBits | internal/fileid/fileid.go:905-907 | three bytes are the four symbols of the RFC 4648 table at the sixes of their 24 bits, and how the last one or two are written |
| Base64.DecodesIff | internal/fileid/fileid.go:569-572 | exactly the well-formed strings can be decoded: symbols of the table, not one more than whole groups, and with padding at most two '=' at the end of a full group |
| Base64.BreakIgnored | internal/fileid/fileid.go:569-572 | a line break counts for nothing, wherever it stands |
| Wire.ReadPaddedBack | internal/fileid/fileid.go:821-893 | read with the alignment it was written with, a byte string comes back exactly if it is shorter than 2^24 bytes and not an empty one without padding at the end of the input |
| Wire.ReadI64Back | internal/fileid/fileid.go:812-864 | every signed 64-bit value comes back |
| Wire.ReadU32Back | internal/fileid/fileid.go:806-851 | a word comes back modulo 2^32 |
| Wire.WordBytes | internal/fileid/fileid.go:806-816 | a word is four bytes and a long eight, lowest first |
| Wire.PaddedBytes | internal/fileid/fileid.go:821-839 | the header, data and zeros of a byte string |
| Wire.Buf.PutBytes | internal/fileid/fileid.go:821-839 | the buffer grows by header, data and zeros up to a multiple of four of its whole length |
| Wire.Reader.TakeBytes | internal/fileid/fileid.go:867-893 | the cursor loop reads a padded byte string |
| Wire.Reader.TakeFixed | internal/fileid/fileid.go:845-864 | a short read fills with zeros and only an empty one fails |
| FileIdCodec.EncodeDocument | internal/fileid/fileid.go:155-171 | writes the document layout |
| FileIdCodec.EncodeThumbnail | internal/fileid/fileid.go:320-372 | writes the photo and document thumbnail layouts |
| FileIdCodec.EncodeDialogPhoto | internal/fileid/fileid.go:276-292 | writes the chat photo layout |
| FileIdCodec.EncodeStickerSetThumb | internal/fileid/fileid.go:398-411 | writes the sticker-set thumbnail layout |
| FileIdCodec.EncodeFullLegacyPhoto | internal/fileid/fileid.go:428-448 | writes the full legacy layout |
| FileIdCodec.EncodeDialogPhotoLegacy | internal/fileid/fileid.go:454-472 | writes the legacy chat photo layout |
| FileIdCodec.EncodeStickerSetThumbLegacy | internal/fileid/fileid.go:478-492 | writes the legacy sticker-set layout |
| FileIdCodec.EncodeWeb | internal/fileid/fileid.go:175-184 | writes the web layout |
| FileIdCodec.EncodeGenerated | internal/fileid/fileid.go:190-198 | writes the generated layout and its own version byte |
| FileIdCodec.Decode | internal/fileid/fileid.go:568-657 | the cursor decoder computes the decoding function, errors included |
| FileIdCodec.TakeSource | internal/fileid/fileid.go:621-655 | the switch over photo sources, with fields that are missing left at zero |
| FileIdCodec.TakeGenerated | internal/fileid/fileid.go:659-687 | the generated branch |
| FileIdProofs.FlagBits | internal/fileid/fileid.go:587-589 | the two flag bits of the type word do not touch each other or the type |
| FileIdProofs.TransportBack | internal/fileid/fileid.go:568-576 | whatever ends in the trailer is decoded as a location from exactly the encoded bytes |
| FileIdProofs.LocationBack | internal/fileid/fileid.go:580-613 | type, dc, reference, id and access hash come back |
| FileIdProofs.DocumentRoundTrip | internal/fileid/fileid.go:155-171 | Decode inverts the document encoder |
| FileIdProofs.ThumbnailRoundTrip | internal/fileid/fileid.go:320-372 | Decode inverts the thumbnail encoders; the type is kept as the UTF-8 text of its code point |
| FileIdProofs.DialogPhotoRoundTrip | internal/fileid/fileid.go:276-292 | Decode inverts the chat photo encoder |
| FileIdProofs.StickerSetThumbRoundTrip | internal/fileid/fileid.go:398-411 | Decode inverts the sticker-set thumbnail encoder |
| FileIdProofs.FullLegacyRoundTrip | internal/fileid/fileid.go:428-448 | Decode inverts the full legacy encoder |
| FileIdProofs.DialogLegacyRoundTrip | internal/fileid/fileid.go:454-472 | Decode inverts the legacy chat photo encoder |
| FileIdProofs.StickerSetLegacyRoundTrip | internal/fileid/fileid.go:478-492 | Decode inverts the legacy sticker-set encoder |
| FileIdProofs.WebRoundTrip | internal/fileid/fileid.go:175-184 | Decode inverts the web encoder |
| FileIdProofs.GeneratedRoundTrip | internal/fileid/fileid.go:190-198 | Decode of a generated id depends on its type and conversion only, and gives back path and conversion where it accepts them |
| FileIdBytes.DocumentBytes | internal/fileid/fileid.go:155-171 | the bytes of a document id: type word with bit 25 for a reference, and the trailer 60, 4 |
| FileIdBytes.ThumbnailBytes | internal/fileid/fileid.go:320-372 | the bytes of a photo size: source 1, type, letter |
| FileIdBytes.DialogPhotoBytes | internal/fileid/fileid.go:276-292 | the bytes of a chat photo: type 1 and source 2, 3, 6 or 7 |
| FileIdBytes.StickerSetBytes | internal/fileid/fileid.go:398-411 | the bytes of a sticker-set thumbnail: type 0 and source 9 or 8 |
| FileIdBytes.FullLegacyBytes | internal/fileid/fileid.go:428-448 | the bytes of the full legacy form: source 5 |
| FileIdBytes.WebAndGeneratedBytes | internal/fileid/fileid.go:175-198 | the bytes of web (bit 24) and generated ids |
| FileIdBytes.Endings | internal/fileid/fileid.go:568-576 | a last byte 3 alone makes a generated id |
| FileIdBytes.BadBase64Iff | internal/fileid/fileid.go:569-572 | which strings are no base64 |
| FileIdBytes.ShortLocation | internal/fileid/fileid.go:577-621 | which locations without flags are too short, end too early or are read |
| FileIdBytes.GeneratedAccepted | internal/fileid/fileid.go:659-687 | which generated ids are accepted, and with what error others are refused |
| FileIdBytes.IdsWebSafe | internal/fileid/fileid.go:905-907 | ids hold letters, digits, - and _ only |
| FileIdBytes.SharedClass | internal/fileid/fileid.go:238-261 | which file types share a class |
| FileIdBytes.UniqueBytes | internal/fileid/fileid.go:494-553 | the bytes behind a unique id of every kind |
| Conversions.AudioBack | internal/fileid/fileid.go:694-703 | a printed song conversion is read back exactly if title and performer hold no '#' and are not both empty |
| Conversions.TileBack | internal/fileid/fileid.go:704-728 | a printed map conversion is read back exactly within the bounds, and panics exactly for a negative zoom |
| Conversions.SplitJoin | internal/fileid/fileid.go:690-693 | splitting a joined text splits its parts |
| UniqueId.UniqueIdsAgree | internal/fileid/fileid.go:494-553 | two files share a unique id exactly if they share a key |
| UniqueId.SameBytes | internal/fileid/fileid.go:494-553 | the unique layouts of different keys differ |
| UniqueId.PhotoSizeIsChatPhoto | internal/fileid/fileid.go:524-544 | a photo size and a chat photo collide exactly for one id and type 'a' with small, 'c' with big (or 251, 252 by wrap-around) |
| UniqueId.OtherKindsNeverCollide | internal/fileid/fileid.go:494-519 | no other kinds collide, but legacy sources that share volume and local id |
| UniqueId.GetFileAgrees | internal/client/files_download.go:435-464 | the id recomputed from a decoded file_id is the one paired with it, for every accepted file_id, unless a thumbnail type is outside ASCII |
| UniqueId.ThumbnailAgrees | internal/client/files_download.go:455-460 | for thumbnails exactly if the type is below 128 or 195 |
| FileIdCodec.EncodeDocumentUnique | internal/fileid/fileid.go:548-553 | writes class and id |
| FileIdCodec.EncodePhotoSizeUnique | internal/fileid/fileid.go:297-307 | writes class, id and compare byte |
| FileIdCodec.EncodeTaggedUnique | internal/fileid/fileid.go:417-424 | writes class, tag, long and word |
| FileIdCodec.EncodeGeneratedUnique | internal/fileid/fileid.go:203-210 | writes 0xFF and the generated fields |
| InlineId.InlineMessageIDFromTL | internal/convert/inline.go:497-551 | the byte array filled by shifts is the little-endian layout, for negative values too |
| InlineId.PackLong | internal/convert/inline.go:521-547 | 24 bytes: dc, owner, id, access hash |
| InlineId.PackShort | internal/convert/inline.go:502-520 | 16 bytes: dc, id, access hash |
| InlineId.ByteModulo | internal/convert/inline.go:523-546 | byte(v >> 8k) does not see the reduction to 32 or 64 bits |
| InlineId.PackedLong | internal/convert/inline.go:523-546 | byte k of each field is byte(v >> 8k), at the field's place |
| InlineId.PackedShort | internal/convert/inline.go:502-520 | the same for the old form |
| InlineId.DecodeEncoded | internal/convert/inline.go:442-452 | any bytes survive the web-safe alphabet, the missing padding and both again |
| InlineId.RoundTrip | internal/convert/inline.go:431-473 | parsing inverts formatting on the 64-bit form; the old form and an absent id give their errors |
| InlineId.Injective | internal/convert/inline.go:497-551 | a 64-bit id has its string for itself |
| InlineId.FormatWebSafe | internal/convert/inline.go:497-551 | the string is web-safe and unpadded, of 32 characters, or 22 for the old form |
| InlineId.ParseBySize | internal/convert/inline.go:454-473 | which sizes are too short, unsupported or understood |
| JsonScanner.SkipJSONValue | internal/server/server.go:468-535 | the index recursion computes the scanning function: where it stops, that it fails, or that it would not end |
| JsonScanner.SkipObject | internal/server/server.go:477-507 | the object loop |
| JsonScanner.SkipArray | internal/server/server.go:508-526 | the array loop |
| JsonScanner.ParseJSONString | internal/server/server.go:420-464 | the string loop |
| JsonScanner.SkipWhite | internal/server/server.go:413-418 | the white-space loop |
| JsonScanner.Query.ParseJSONObject | internal/server/server.go:357-411 | Args after the object loop, on every input, also where it fails half-way |
| JsonText.SkipBack | internal/server/server.go:468-535 | on the text of every JSON value with any white space the scan stops exactly one past the value, for a number or a literal if and only if a delimiter or the end follows |
| JsonText.ReadBack | internal/server/server.go:386-402 | a string member is read decoded, any other as exactly its slice |
| JsonText.ObjectBack | internal/server/server.go:357-411 | a printed object is read as its members in order |
| JsonText.LastWins | internal/server/server.go:386-402 | after assigning in order each name holds its last value and no other name changes |
| JsonText.ArgsAfterObject | internal/server/server.go:357-411 | what Args holds after a printed object, name by name |
| JsonFailures.ObjectStops | internal/server/server.go:357-411 | after any members: an end of text or a closing brace is success, a name that is no string or does not end, a missing colon or value is failure, and the members before stay read |
| JsonFailures.NoObject | internal/server/server.go:357-366 | text that is no object gives nothing |
| JsonFailures.OddEscape | internal/server/server.go:453-456 | any other character after a backslash is kept with it |
| JsonCuts.ValueCut | internal/server/server.go:468-535 | on any text whose scan ends, cut anywhere: a string, object or array is found exactly if it is there to its last character, with the same end; what else there is ends where it did or where the text does |
| JsonCuts.Unfinished | internal/server/server.go:468-535 | a printed string, array or object that is cut short is never taken for a value |
| JsonCuts.ObjectCut | internal/server/server.go:357-411 | any object that is accepted, cut anywhere, gives its first members, only the last of them perhaps with a value cut short |
| JsonText.DecodedIsStandard | internal/server/server.go:431-452 | strings are decoded as the standard asks, two-character escapes by the code points of its table and surrogate pairs as one character, exactly if they hold no \u escape |
| JsonText.Progress | internal/server/server.go:512-522 | the array loop makes no progress exactly where an item starts with '}' |
| JsonText.EndlessArray | internal/server/server.go:512-533 | so '}' after '[' never ends, whatever follows |
| JsonLoops.EndlessIff | internal/server/server.go:468-535 | a scan of any text never ends exactly if it meets a '}' where an array item should start, at any depth |
| JsonLoops.ObjectLoopsIff | internal/server/server.go:357-411 | parseJSONObject never returns exactly on the texts in which a member's value does |
| JsonLoops.LoopingObject | internal/server/server.go:357-411 | as on an object whose first member is "[}", whatever its key and whatever follows |
| EscapeJson.EscapeNonASCII | internal/response/response.go:74-123 | the loop computes the rewriting function on every byte string |
| EscapeJson.SameReading | internal/response/response.go:74-123 | for every byte string the rewritten text reads as the same structure, escapes and UTF-16 units |
| EscapeJson.AsciiOutput | internal/response/response.go:106-119 | the output is ASCII exactly if the other bytes were inside strings and not right after a backslash |
| JsonAscii.PrintedIsAscii | internal/response/response.go:74-123 | the text of every JSON value, with any bytes in its strings, is rewritten to pure ASCII with the same tokens |
| EscapeJson.Idempotent | internal/response/response.go:74-123 | rewriting twice is rewriting once |
| EscapeJson.UnitsBack | internal/response/response.go:114-119 | surrogate pairs decode to the character they stand for |
| EscapeJson.RuneBack | internal/response/response.go:107-110 | UTF-8 decoding inverts encoding |
| EscapeJson.DecodeExact | internal/response/response.go:106-112 | decoding takes the character the bytes start with, or one byte as the replacement character if they start with none |
| EscapeJson.HexTables | internal/response/response.go:111-119 | digits are lower case |
| EscapeJson.EscapeWritten | internal/response/response.go:111-119 | one escape, or two with the high surrogate first |
| EscapeJson.TextKept | internal/response/response.go:74-123 | a string's code points are exactly what a reader of the rewritten text decodes |
| MessageCache.MsgCache.constructor | internal/client/msgcache.go:49-59 | an empty cache; a capacity of zero or less is the default |
| MessageCache.MsgCache.Put | internal/client/msgcache.go:66-91 | after a put the cache is what its history says; nil messages and zero ids are ignored |
| MessageCache.MsgCache.Get | internal/client/msgcache.go:136-148 | a hit returns the message of the key's last put and is a touch, exactly for the cached keys |
| MessageCache.MsgCache.SourceByMediaID | internal/client/msgcache.go:95-103 | the key of the last put that listed the id, exactly if it is cached and its own last put lists the id |
| MessageCache.MsgCache.Len | internal/client/msgcache.go:151-158 | never above the capacity |
| MessageCache.MsgCache.SetMediaIDsLocked | internal/client/msgcache.go:107-113 | the index loops |
| MessageCache.MsgCache.EvictLocked | internal/client/msgcache.go:127-132 | list, map and index lose exactly the oldest entry |
| MessageCache.FrontLinked | internal/client/msgcache.go:74-79 | moving to the front keeps map and list in bijection |
| CacheSpec.PutRefines | internal/client/msgcache.go:66-91 | a put with eviction refines the history |
| CacheSpec.GetRefines | internal/client/msgcache.go:136-148 | so does a get |
| CacheSpec.CachedAfter | internal/client/msgcache.go:66-91 | a put, or a get that hits, moves its key to the front of the cap keys kept; a get that misses changes nothing |
| CacheSpec.CachedIff | internal/client/msgcache.go:84-90 | a key is cached exactly if fewer than cap different keys were touched after it |
| CacheSpec.TouchTaken | internal/client/msgcache.go:84-90 | evicting at every put is the same as keeping all keys and looking at cap of them |
| Format.ParseMarkdownText | internal/convert/format.go:155-212 | the loop computes the stack machine |
| Format.ParseHTMLText | internal/convert/format.go:98-136 | so does the loop over tags |
| Format.FindOpen | internal/convert/format.go:190-196 | the innermost open entity of a style |
| FormatProofs.MarkdownEntities | internal/convert/format.go:155-212 | entities are not empty, inside the text, sorted, and of one style never overlapping |
| FormatProofs.HtmlEntities | internal/convert/format.go:98-136 | the same for HTML, where one style may nest |
| FormatProofs.HtmlIff | internal/convert/format.go:107-134 | HTML parses exactly if openers and closers of every style balance |
| FormatStyles.MarkdownByStyle | internal/convert/format.go:155-212 | on every text in both modes: success exactly if every style is toggled an even number of times, and then the entities of each style are the pairs of its toggles with text between them |
| FormatStyles.RunItems | internal/convert/format.go:155-212 | from any state of the stack machine |
| FormatStyles.WidthIsUtf16 | internal/convert/format.go:278-280 | offsets and lengths count UTF-16 units |
| FormatProofs.SortSorted | internal/convert/format.go:246-255 | the sort orders by offset |
| FormatProofs.SortStable | internal/convert/format.go:246-255 | and keeps the order of spans that start together |
| FormatProofs.SortHolds | internal/convert/format.go:246-255 | and neither adds nor drops a span |
| FormatRoundTrip.RoundTrip | internal/convert/format.go:155-244 | printed runs with text between them, each character escaped or bare where it starts no token, parse to the text and one entity for each run that is not empty, in both Markdown modes, if and only if no run with a token that doubles is empty; code and pre text is verbatim |
| FormatRoundTrip.PlainText | internal/convert/format.go:184-187 | a text with no backslash and no token character of the mode is its own meaning |
| FormatRoundTrip.RunSpoiled | internal/convert/format.go:155-212 | an entity opened before more text was written stays open or leaves a span where it began, whatever text follows |
| FormatRoundTrip.HtmlRoundTrip | internal/convert/format.go:98-136 | a printed tree of elements parses to its text and its elements |
| FloodGate.Gate.ApplyUploadFloodLimit | internal/client/upload_flood.go:83-126 | the gate's conditions, its decision and the buckets after it |
| FloodGate.OneRequest | internal/client/upload_flood.go:53-68 | rejected exactly when the backlog is over five seconds, and then unchanged; served at once exactly when the bucket and its delay are not ahead; otherwise started exactly where they stand; the bucket after each |
| FloodGate.DelayBySize | internal/client/upload_flood.go:54-59 | the delay for each size |
| FloodGate.Rate | internal/client/upload_flood.go:53-68 | over any run, two services of one size start at least (j - i) delays apart, less one second |
| FloodGate.NoLater | internal/client/upload_flood.go:53-68 | over any run, a service that has to wait starts exactly one delay after the level the one before it left |
| FloodGate.FirstNoLater | internal/client/upload_flood.go:53-68 | and the first one where its bucket stood |
| FloodGate.Window | internal/client/upload_flood.go:53-68 | so a window bounds the number of starts |
| FloodGate.Burst | internal/client/upload_flood.go:64-67 | the one second of slack is real |
| FloodGate.Itoa | internal/client/upload_flood.go:130-149 | the buffer filled from the end holds the decimal numeral, for the least 64-bit integer only its sign |
| Chunks.UploadFile | internal/client/upload.go:28-70 | the loop over one buffer sends the numbered pieces of the content until one is refused, and fails exactly on a refusal, a failing source or no content |
| Chunks.UploadEnds | internal/client/upload.go:28-70 | the exact condition of each end; the file has as many parts as were sent, and is big from 10 MiB on |
| Chunks.UploadParts | internal/client/upload.go:28-70 | with the true size: numbered from 0, joining to the content, all but the last 512 KiB, as many as announced |
| Chunks.DownloadByLocation | internal/client/files_download.go:258-296 | exactly the content, unless a request that is needed fails, or all succeed, the server is not local and the content is over 20 MiB |
| Chunks.RequestCount | internal/client/files_download.go:258-296 | how many requests of 1 MiB a download makes |
| ChatId.PrefixRoundTrip | internal/client/chat_info.go:468-500 | the prefix parsers read back the kind and channel id exactly for channels below 10^10, groups whose decimal does not start with 100, and all users |
| ChatId.ResolveRoundTrip | internal/convert/peer.go:58-100 | ResolvePeer reads back every valid peer exactly where the prefix parsers do and the peer store has no other kind of peer under the id |
| ChatId.ThresholdRoundTrip | internal/client/files_download.go:412-421 | the numeric comparison reads back everything but groups from 10^12 on |
| ChatId.CodecsAgree | internal/convert/peer.go:69-100 | the exact set of negative 64-bit numbers that the prefix parser reads as the numeric comparison does (internal/client/files_download.go, lines 412 to 421) |
| ChatId.GroupHundred | internal/convert/peer.go:69-74 | basic group 100 is refused as a channel |
| ChatId.NotAChat | internal/client/chat_info.go:468-491 | the errors for nothing, a user name, zero and what is no number |
| ChatId.HundredDecimal | internal/client/chat_info.go:493-500 | which numerals start with 100, and what number follows |
| Decimal.ParseFormat | internal/client/chat_info.go:475-483 | parsing inverts printing within the range |
| Decimal.Places | internal/client/upload_flood.go:130-149 | the digit of each place is where it belongs, with no leading zero |
| Decimal.DigitsPrinted | internal/client/chat_info.go:475-483 | every string of digits is the numeral of its value, up to leading zeros |

## Left out

- QueueSafety.EveryRun: a push with the largest int32 as its hint is not a step, because its negative id would break the queue; `QueueSpec.NextIDMonotonic` says exactly so, and the server always passes 0.
- UpdateStore.PushWithData: is the push without interference; interleaved pushes are steps of `QueueProtocol`, on values, with the same functions.
- Delivery.ExactlyOnceInOrder: promises nothing after a restart that left the tail below the bot's last id, where it is false; `BotProtocol.FallsBackIff` says when that is and `BotLoss.LostAfterRestart` what happens.
- JsonText.SkipBack: says nothing about malformed values; of those that are cut short `JsonCuts.ValueCut` does, of members that go wrong `JsonFailures.ObjectStops`, and of every text `JsonLoops.EndlessIff`.
- FormatRoundTrip.RoundTrip: runs that touch are not covered; for them, as for every text, `FormatStyles.MarkdownByStyle` says what is parsed.
- FloodGate.Rate: is over real numbers, so the rounding of floats is not covered; the sleeps themselves are not modelled.
- Chunks.UploadFile: the 32-bit part counter is unbounded here.
- Chunks.DownloadByLocation: redirects to other servers, which continue there, are not modelled.
- LongPoll.OneLongPoll: says that a signalled poller can end, not when; timers and the delay before a delayed conflict are not modelled.
- The map of queues in the server is modelled on values (`QueueProtocol`), so its lock order is not captured; each queue is a class.
- getUpdates: reading and clamping of parameters, the minimum timeout for repeated offsets, negative offsets and allowed update types; SQL text, write-ahead logging and the file system behind the rows.
- Remote calls, connections, HTTP routing, multipart bodies, logging, counters and command-line handling.
- The webhook deliverer and its transport; address and path checks of webhooks and downloads.
- HTML: finding tags in text and replacing character references; unknown entity types given as JSON.
- EncodePhoto and EncodePhotoUnique, which nothing pairs; latitude and longitude of map tiles; ToInputDocument, ToInputPhoto and other field-by-field conversions.
- Cache, queue and gate calls on missing objects, which do nothing.
- FileIdCodec.Decode: the base64 decoder is a function of its own here, not a loop.
