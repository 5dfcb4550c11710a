# A verified model of the gorbage artifact store

The store takes a file (or a zipped directory) in chunks and gives it back in ranges. This project
models the upload session of the server, the two transfer loops of the client, the flattening and
rebuilding of directories, and the size printer, and proves what they keep.

## How the model is laid out

| file | contents |
|---|---|
| `Chunking.dfy` | uint64 and int64 arithmetic with wrap-around, chunk counts, ranges, slices |
| `Keys.dfy` | part, session and bitmap names, and their injectivity |
| `Protocol.dfy` | one `UploadPart` call as a sequence of store operations, each of which may fail |
| `Server.dfy` | the request handlers as methods of a server with mutable stores |
| `Answers.dfy` | what one call answers and leaves under any failing operations, in one step |
| `World.dfy` | any number of sessions and calls at once: actions, runs, reachable states |
| `Safety.dfy` | the invariant of every reachable state, and the safety results |
| `Completion.dfy` | completion, late failures, deadlines, and the end of every call |
| `Delivery.dfy` | calls run one at a time: delivery order, and recovery of a stalled upload |
| `Overlap.dfy` | calls that overlap: overtaken assemblers, late duplicates, one call per chunk |
| `Duplicates.dfy` | which lists of sends can leave something behind |
| `Sharing.dfy` | uploads to one prefix, and a prefix named like another upload's part |
| `Download.dfy`, `Downloader.dfy` | the feeder and its workers, as a transition system and in place |
| `Upload.dfy`, `Uploader.dfy` | the throttled send loop, as a transition system and in place |
| `Archive.dfy`, `Archiver.dfy` | directory trees and entry lists, as functions and in place |
| `HumanSize.dfy` | the unit-scaling loop |
| `EndToEnd.dfy` | upload and download together, with encryption and archive around them |
| `Joint.dfy` | the client's upload loop running against the server |

An operation of the server is one call to the object store or to Redis. `Protocol.Next` is the
single definition of what each operation does. `Server.StorageServer.UploadPart` is the handler with
its loops, proved to do exactly what a run of `Next` does when nothing comes in between
(`RunAlone`), under any plan of failing operations; `World` lets any number of calls take such steps
in any order, and `Delivery.SoloIsRunAlone` shows that a call running alone is one of its
interleavings. All nondeterminism is in the actions of a run, so a statement about every legal run
is a statement about every interleaving, every fault, every expiry and every deletion.

An operation that fails may have taken effect or not (`FailBefore`, `FailAfter`). A world also keeps
a history the code does not have: the sessions opened and the files their senders cut, how far each
call came, which uploads had a failing operation or an expired key, and, for each upload, which
objects were deleted and which final objects were put by other uploads since it was opened.

## Assumptions

- A put stores the whole stream or nothing, and fails without effect when its stream ends in an error
  or does not have the length that the put declares; a read returns the whole object or an error. The
  Redis commands are atomic. Reading at a negative offset is an error other than the end of the file.
- A sender sends the slice its sequence number names (`World.Enabled`). The server never looks at the
  length of a chunk.
- A new upload id is unused, and a final prefix is not named like a part key. The server does not check
  the second, and `Sharing.ForeignPrefixTearsFile` shows what it allows: an upload whose prefix is the
  name of a part of another open upload, and whose file is as long as that part, makes that one store
  a torn object and answer Ok. With any other length the other upload's last call fails, and sending
  the part again repairs it.
- Redis drops a session key only after its time to live.
- The transfer loops are given something to transfer and a chunk size between 1 and 2^63 - 1
  (`Chunking.Transferable`). `DownloadArtifact` refuses an object of size zero itself.
- A download reads one object that is not overwritten meanwhile.
- All calls of one upload come from one client and so name one bucket where a result says `OneBucket`;
  the other results allow any buckets. `Delivery.CompletingCallOutcome` says what happens otherwise.

## Results that a reader may not expect

- The upload is not lost by a crash in the middle: a part is removed only after the final object was
  put, and re-sending any one chunk finishes a stalled upload.
- A fault-free run always ends with the file, and yet one of its calls can answer an error: two calls
  can both see the full count, and one can sweep a part before the other reads it. This happens to
  some run of every upload of more than one chunk (`Overlap.FailingCallExactly`), and never to
  calls that do not overlap (`Delivery.OkUntilComplete`).
- One call per chunk leaves nothing behind, in any interleaving (`Overlap.OneCallEachLeavesNothing`). A chunk
  sent twice can leave a part and a bitmap without a session, although every call answers Ok
  (`Overlap.LateDuplicateExists`); every list of sends with a chunk twice can leave something, and no
  other (`Duplicates.LeftoverExactlyByDuplicate`).
- The server's uint64 chunk count is exact or zero: when `size + chunk - 1` wraps, the session accepts
  no part. The client's int64 count is then not positive.
- When `size + chunk - 1` wraps in int64 the client counts no range: the download returns nil over an
  output it never wrote, and the upload loop returns nil with nothing sent, or panics. Without a wrap a
  nil download is always a copy (`Download.NilMeansCopyExactly`, `Upload.NilMeansSentExactly`).
- A download without workers does not return until its caller cancels it, and an upload loop without
  workers blocks or panics; with at least one worker, and no wrap, neither can get stuck.
- The upload loop returns nil when a reply refuses its part without an error; only the counter shows
  it.
- A download cancelled after its last range was handed out, and that then loses none, still returns nil
  (`Download.NilExactlyWhenWritten`).
- Unpacking writes over files that are there, keeps what the archive does not name, and when it stops
  leaves what it has unpacked so far (`Archive.UnpackOver`, `Archive.UnpackLeaves`).

## Model

| member | source | states |
|---|---|---|
| Chunking.ServerTotalExact | internal/server/storage.go:87-96 | the uint64 chunk count just covers the size, and is the only count that does, if and only if the addition does not wrap; when it wraps the count is zero |
| Chunking.ClientServerAgree | internal/client/storage.go:191 | client and server count the same chunks if and only if size + chunk - 1 < 2^63; when the client's sum wraps its count is the truncated quotient of the negative sum, so never positive |
| Chunking.WrappedCounts | internal/client/storage.go:191 | two sizes on which the client's sum wraps: it counts zero ranges, or minus one |
| Chunking.ClientRangeExact | internal/client/storage.go:258-263 | under the bound no product or sum leaves int64, ranges are non-empty, and range i is exactly cut i to cut i + 1 |
| Chunking.ByteInOneRange | internal/client/storage.go:298-303 | every byte lies in exactly one range, the one its quotient names |
| Chunking.JoinedIsFile | internal/server/storage.go:209-230 | the slices of all chunks, end to end, are the file |
| Keys.PartKeyInjective | internal/server/storage.go:173 | part keys differ for different upload ids or sequence numbers, whatever characters the ids hold |
| Keys.SessionKeysInjective | internal/server/storage.go:65-71 | session and bitmap keys are injective and never equal each other |
| Keys.DecimalReadsBack | internal/server/storage.go:173 | the decimal form of a sequence number reads back as the number, without leading zeros |
| Keys.NamesOfOneUpload | internal/server/storage.go:65-71 | the three kinds of names of one upload, written out |
| Protocol.UploadsDoNotInterfere | internal/server/storage.go:173-259 | no operation of a call changes another upload's session or bitmap, nor any of its parts that the call's final prefix does not name |
| Protocol.NextDecreases | internal/server/storage.go:148-266 | every operation, failing or not, brings its call nearer to its end |
| Server.NewServer | internal/server/storage.go:40-63 | a server exists if and only if both connections are given and time to live and chunk size are positive, and it has that time to live and that chunk size |
| Server.ReadRangeExact | internal/server/storage.go:275-325 | for all uint64 offsets and lengths, in plain arithmetic: which ranges are served and with which bytes, which are refused, and which panic |
| Server.StorageServer.InitiateUpload | internal/server/storage.go:73-128 | which requests open a session and which error each other one gets; the preferred chunk size is kept, and the server's own is used without one; the exact count; and the session and the empty bitmap stored, also when the transaction takes effect but its reply is lost |
| Server.StorageServer.UploadPart | internal/server/storage.go:130-267 | the handler's effect and answer are those of the protocol's run of one call, under any failing operations, and with the final put failing when the parts do not add up to the declared size |
| Answers.RefusedExactly | internal/server/storage.go:131-171 | for every store, call and plan of failing operations: when a lone call answers NotFound, InvalidArgument, or panics, and that it then has stored nothing |
| Answers.AcceptedExactly | internal/server/storage.go:173-201 | what an accepted call answers and leaves when its part, its bit or its count fails, before or after taking effect, and when the count is not full |
| Answers.AssemblyExactly | internal/server/storage.go:201-262 | a call that saw the full count answers Ok if and only if every read, the size and the put are right; what the stores hold then, whatever removals fail, and otherwise |
| Server.StorageServer.AssembleAndSweep | internal/server/storage.go:201-262 | the completion branch, with its reading loop and its final put of the declared size, is the tail of that run |
| Server.StorageServer.RemoveParts | internal/server/storage.go:247-259 | the sweep is the end of that run and answers Ok whatever removals fail |
| Server.StorageServer.DownloadRange | internal/server/storage.go:269-326 | a range that starts inside a stored object is answered with exactly its bytes up to its end or the object's, unless its length or end leaves int64; a missing object is an error |
| World.OpenExact | internal/server/storage.go:85-117 | what an opened session stores, with which chunk size, and its deadline: the last whole second of the time to live |
| Safety.StepSafe | internal/server/storage.go:130-262 | every action, with every fault, keeps the safety invariant |
| Safety.NoTornObjects | internal/server/storage.go:204-245 | in every reachable state an object under a final prefix is the whole file of one upload to that prefix |
| Safety.NoAcknowledgedChunkLost | internal/server/storage.go:176-255 | the chunk of a call that answered Ok is stored as a part, or an object is stored under the final name (the whole file unless another upload has put its own there), or one of them was deleted since the upload was opened |
| Safety.BitmapExact | internal/server/storage.go:190-201 | every set bit is a chunk whose part was put, and the count is the total if and only if every bit is set |
| Safety.FullSetHasAll | internal/server/storage.go:195-201 | a set of numbers below n has n members if and only if it has them all |
| Safety.MalformedCallsRefused | internal/server/storage.go:131-171 | in every reachable state a lookup that does not fail refuses a call as invalid if and only if it has no bucket, or finds the session and has a sequence number past the chunk count; such a call never stores anything or answers Ok |
| Safety.NoPanic | internal/server/storage.go:53-55 | no stored session has chunk size zero and no call divides by it |
| Completion.InTimeMeansPresent | internal/server/storage.go:112-117 | until the client's deadline neither key of its upload has expired |
| Completion.NoLostCompletion | internal/server/storage.go:190-245 | when every chunk was sent and every call answered Ok in time, some call has assembled, and the file is stored in its bucket |
| Completion.CompletedForGood | internal/server/storage.go:239-262 | a completed upload stays completed on every continuation, until its object is deleted or another upload puts its own |
| Completion.FaultFreeRunStoresFile | internal/server/storage.go:201-262 | a fault-free run whose calls have all ended leaves the file stored, also when calls were sent twice or answered an error, unless since its opening it was deleted or another upload put its own |
| Completion.OnlyCountableUploadsStart | internal/server/storage.go:160-171 | only an upload with a non-empty file and a count that did not wrap gets a call past the sequence check |
| Completion.CallsEnd | internal/server/storage.go:130-267 | a running call can always move, and every operation of any call lowers what is left to do |
| Delivery.CompletingCall | internal/server/storage.go:195-266 | the call that completes the bitmap stores the file, leaves no part and no key, and answers Ok |
| Delivery.CompletingCallStores | internal/server/storage.go:201-262 | the call that completes the bitmap puts whatever is stored under the part names, end to end, when it has the declared size, and otherwise fails and leaves its part and bit |
| Delivery.CompletingCallOutcome | internal/server/storage.go:201-245 | that call succeeds if and only if every other part is in its own bucket; otherwise nothing but its part is stored |
| Delivery.DeliveredSoFar | internal/server/storage.go:148-262 | after any deliveries the stores hold exactly the parts and bits that came, or, once all came, the completed upload |
| Delivery.DeliveryOrderIrrelevant | internal/server/storage.go:148-262 | any order with any duplicates leaves the stores as one direct put of the file, and later calls get NotFound |
| Delivery.NothingEarly | internal/server/storage.go:195-201 | the final object exists, and the session is gone, if and only if every chunk was delivered |
| Delivery.OkUntilComplete | internal/server/storage.go:148-266 | one call at a time, a delivery is answered Ok if and only if some chunk was still missing, and NotFound otherwise |
| Delivery.SoloIsRunAlone | internal/server/storage.go:130-267 | a call running alone is a legal interleaving with the same end |
| Delivery.StalledUploadRecovers | internal/server/storage.go:195-262 | from a reachable state with all bits set and no sweep begun, the call that sends any given chunk again and runs to its end answers Ok, stores the file and clears the rest |
| Delivery.EveryFileCanBeUploaded | internal/server/storage.go:73-267 | every non-empty file whose chunk count does not wrap and fits a Redis bitmap has a run that stores it, with all calls Ok |
| Overlap.AssemblerFailsExactly | internal/server/storage.go:209-244 | with one call per chunk and no fault, an assembler's read of part j fails if and only if another call of the upload has swept past j |
| Overlap.OrderlyAnswers | internal/server/storage.go:201-266 | with one call per chunk and no fault, a call that does not answer Ok is such an overtaken assembler |
| Overlap.FailureNeedsTwoAssemblers | internal/server/storage.go:195-245 | a failing call implies a second call that saw the full count, and a second chunk |
| Overlap.FailingCallExactly | internal/server/storage.go:195-255 | some fault-free run with one call per chunk stores the file and has a failing call, if and only if the upload has more than one chunk |
| Overlap.OneCallEachLeavesNothing | internal/server/storage.go:201-262 | with one call per chunk, in any interleaving without faults, the end of all calls leaves the file and no part, session or bitmap |
| Overlap.LateDuplicateLeaves | internal/server/storage.go:173-245 | a call whose lookup came before the sweep and whose other operations come after it leaves its part and a bitmap without a session, unless it is the only chunk and has the declared size |
| Overlap.LateBitLeaves | internal/server/storage.go:190-245 | a call that sets its bit after the sweep of its part always leaves a bitmap without a session |
| Overlap.LateDuplicateExists | internal/server/storage.go:148-262 | every upload of more than one chunk has a fault-free run, all calls Ok and the file stored, that leaves a part and a bitmap |
| Duplicates.LeftoverExactlyByDuplicate | internal/server/storage.go:148-262 | for every list of sends that covers the file, some fault-free run of exactly these sends, with all calls ended, leaves a part or a key, if and only if the list has a chunk twice |
| Sharing.ReuploadUndisturbed | internal/server/storage.go:204-239 | when the earlier uploads to a prefix are over, no other upload puts over the new one's object on any continuation without further uploads to it |
| Sharing.EndedIsOver | internal/server/storage.go:148-152 | an upload sent once and ended without faults is over: it can put nothing any more |
| Sharing.ForeignPartsKept | internal/server/storage.go:239 | a whole upload leaves another upload's part as it was if and only if its prefix is not that part's name, or its file is the part's content |
| Sharing.OwnPrefixKept | internal/server/storage.go:204-255 | an upload's own sweep leaves its final object if and only if the prefix is not one of its own part keys; no request can aim at the failing case, since its prefix is fixed before the id is drawn |
| Sharing.ForeignPrefixTearsFile | internal/server/storage.go:98-102 | after an upload whose prefix names a part of another open upload, that one's last call answers Ok if and only if the foreign file is as long as the part, and then stores its file if and only if the bytes are the same; otherwise it fails with nothing new under its prefix, and re-sending the part completes it |
| Download.RequestAnswered | internal/client/storage.go:207-235 | every request the workers make is answered with exactly the slice, so the length check never rejects a stable object |
| Download.StepValid | internal/client/storage.go:205-275 | every step keeps: each range has one holder, and each byte is written once and right, when its range is |
| Download.SuccessIsCopy | internal/client/storage.go:190-276 | without a wrap a nil result means the output is the object, every byte was written exactly once, and the counter is the size |
| Download.NilMeansCopyExactly | internal/client/storage.go:191-275 | a nil result means a copy on every run if and only if size + chunk - 1 < 2^63 |
| Download.WrappedReturnsNil | internal/client/storage.go:191-275 | when the sum wraps the download returns nil and has written nothing, over any output |
| Download.CounterInRange | internal/client/storage.go:247 | the shared counter stays between zero and the size in every reachable state |
| Download.FailureIsReported | internal/client/storage.go:220-275 | a range that was not written never yields nil |
| Download.NilExactlyWhenWritten | internal/client/storage.go:258-275 | at the return the result is nil if and only if every range was written, cancelled or not |
| Download.NilExactlyWithoutFailure | internal/client/storage.go:215-275 | on every run that returns, the result is nil if and only if no request failed, no write was partial, and the feeder did not give up |
| Download.GiveUpExactly | internal/client/storage.go:265-270 | a cancellation or a failed worker lets the feeder give up its next send with an error, and nothing else does |
| Download.AllWorkersBusy | internal/client/storage.go:191-205 | the pool has exactly as many workers as wanted or as there are ranges, and some run has all of them asking at once |
| Download.FaultlessSucceeds | internal/client/storage.go:205-275 | without faults and cancellation a download that returns has succeeded |
| Download.StuckExactlyWithoutWorkers | internal/client/storage.go:191-206 | every reachable unfinished state can move without a cancellation by the caller if and only if there is at least one worker or the count wrapped |
| Download.StepsRunOut | internal/client/storage.go:201-275 | every step lowers undispatched ranges, ranges in flight and live workers, also when workers fail |
| Downloader.ChunkDownloader.constructor | internal/client/storage.go:191-205 | the pool has as many workers as wanted and useful, nothing is sent or written |
| Downloader.ChunkDownloader.Dispatch | internal/client/storage.go:258-266 | the feeder's int64 range goes to an idle worker |
| Downloader.ChunkDownloader.Receive | internal/client/storage.go:207-235 | the reply is kept or the worker fails and cancels |
| Downloader.ChunkDownloader.CopyIn | internal/client/storage.go:237 | the bytes land at their offset and nothing else changes |
| Downloader.ChunkDownloader.WriteBack | internal/client/storage.go:237-252 | a complete write raises the counter, a partial one fails the worker |
| Downloader.DownloadChunks | internal/client/storage.go:190-276 | on every schedule the result is nil if and only if it ran to the return and no step of it failed, which is when every range was written; then the array holds the object, or is untouched when the sum wraps |
| Upload.Throttled | internal/client/storage.go:280-310 | in-flight sends never exceed the workers or the ranges, and range i is dispatched once, i-th, with exactly its bytes |
| Upload.AllSlotsBusy | internal/client/storage.go:280-306 | some run has as many sends in flight as workers wanted, or ranges |
| Upload.CancelledExactly | internal/client/storage.go:325-338 | the other sends are cancelled if and only if some reply was an error or a refusal |
| Upload.ResultIsExact | internal/client/storage.go:329-346 | on return every range was sent and answered; the result is nil if and only if no send failed; the counter is the size if and only if every reply acknowledged |
| Upload.NilMeansSentExactly | internal/client/storage.go:280-346 | on every run the loop does not panic and a nil result means that all parts were sent, if and only if size + chunk - 1 < 2^63 and workers is not negative |
| Upload.RunsExactlyWithWorkers | internal/client/storage.go:280-306 | the loop neither blocks nor panics if and only if it has a worker, or nothing to send because its count wrapped to zero |
| Upload.StepsRunOut | internal/client/storage.go:298-342 | every step, also after an error, brings the loop nearer to its return |
| Uploader.ChunkUploader.Dispatch | internal/client/storage.go:298-323 | the loop takes a slot and sends the range's bytes |
| Uploader.ChunkUploader.Complete | internal/client/storage.go:325-338 | the end of a send gives the slot back and counts, cancels or fails |
| Uploader.UploadChunks | internal/client/storage.go:278-347 | on every schedule the parts dispatched are the slices in order, once each; nil if and only if no send failed; the counter is the size if and only if all were acknowledged; and the throttle holds after every step |
| Archive.ComponentsOfRel | internal/client/file.go:117-135 | reading a walked name back gives the names of its path, with or without a directory's slash |
| Archive.EntryExact | internal/client/file.go:117-135 | a header's name, cut at its slashes, is the path, with an empty last piece for a directory; its bytes are the file's |
| Archive.ComponentsExact | internal/client/file.go:64 | a path is read as its pieces between slashes without the empty ones and "." |
| Archive.DirPartExact | internal/client/file.go:74 | the directory part of a path ends at its last slash |
| Archive.DotsExact | internal/client/file.go:60 | a name is refused if and only if it contains two dots in a row |
| Archive.LessEqIsLexical | internal/client/file.go:113 | the walk's order of names is lexical: a prefix first, and otherwise by the first difference |
| Archive.WalkExact | internal/client/file.go:113-160 | a walk lists every path below the root once, with what is under it, a directory before its contents, and its entries in lexical order |
| Archive.MkdirAllExact | internal/client/file.go:66-77 | making a directory with its parents succeeds if and only if no file is in the way, and changes nothing else |
| Archive.WriteFileExact | internal/client/file.go:84-96 | writing a file succeeds if and only if all above it are directories and it is none; it then holds the new bytes, whatever was there, and nothing else has changed |
| Archive.PlaceAnyExact | internal/client/file.go:64-96 | one entry of any name: when it is placed, and exactly what it changes, also when it fails after its directories were made |
| Archive.UnpackOver | internal/client/file.go:48-103 | a tree unpacked over any directory: it fails if and only if some name contains ".." or one side has a file where the other has a directory; otherwise the tree's files and directories are as in the tree and every other path is as before |
| Archive.UnpackLeaves | internal/client/file.go:59-102 | wherever unpacking stops, it leaves exactly the effect of the entries before the first bad one |
| Archive.UnpackStops | internal/client/file.go:59-102 | the same for any list of entries, also with the directories made for a file that then cannot be written |
| Archive.RoundTrip | internal/client/file.go:48-160 | unpacking the walked entries into an empty directory rebuilds the tree, and fails if and only if some name contains ".." |
| Archive.Sorted | internal/client/file.go:113 | a directory is walked in lexical order, each name once |
| Archiver.ZipWriter.Add | internal/client/file.go:117-158 | the callback appends the header with its relative name and, for a file, its bytes |
| Archiver.ZipWriter.WalkDir | internal/client/file.go:113-160 | the walk appends exactly the entries below the directory |
| Archiver.Destination.UnpackArchive | internal/client/file.go:59-102 | the loop leaves the tree and the verdict of the unpack function, also when it stops half-way |
| Archiver.HasDots | internal/client/file.go:60 | whether a name contains ".." |
| Archiver.CopyDirectory | internal/client/file.go:48-160 | zipping and unpacking copies a tree, exactly when no name contains ".." |
| HumanSize.HumanSize | internal/client/view.go:48-61 | the divisor and the unit letter for each of the six ranges of sizes, without overflow and with the unit index in bounds |
| HumanSize.UnitUnique | internal/client/view.go:53-57 | a size belongs to one unit only |
| HumanSize.SixUnits | internal/client/view.go:60 | a 64-bit size needs at most the sixth unit |
| EndToEnd.ClientSendsWhatServerExpects | internal/client/storage.go:319-323 | the parts of the client's loop are the slices the protocol assumes, as many as the session counts |
| EndToEnd.ClientSuccessStoresFile | internal/client/storage.go:415-421 | when the client has counted every byte before its deadline, the file is stored |
| Joint.SendCanArrive | internal/client/storage.go:298-323 | beside any server activity, the part the loop sends next is the next slice, and one the server's senders may send |
| Joint.LoopIsServed | internal/client/storage.go:306-342 | on every joint run of loop and server, the calls at the return are the loop's sends, at most one per chunk, and an acknowledged part has a call that answered Ok |
| Joint.NilUploadStoresFile | internal/client/storage.go:415-421 | on every joint run an upload that returns nil before its deadline has stored the file, unless something else touched the object |
| Joint.SuccessfulUploadExists | internal/client/storage.go:403-421 | every file whose count does not wrap and fits a Redis bitmap has such a joint run, with any worker count from one |
| EndToEnd.DownloadReturnsUpload | internal/client/storage.go:84-119 | a download of a finished, untouched upload returns its bytes, whatever chunk sizes, workers and interleavings |
| EndToEnd.RestoreExact | internal/client/storage.go:130-183 | for any fetched bytes: refused if and only if they are too short for the nonce or do not open, the destination is of the other kind, the archive does not unzip, or its entries do not unpack; otherwise the opened bytes, or the unpacked tree |
| EndToEnd.RestoreUndoesPrepare | internal/client/storage.go:130-183 | decrypting and unpacking gives back the file or directory that was zipped and encrypted, with or without a key, also over an existing destination; refused if and only if a name contains ".." or a file meets a directory |
| EndToEnd.ArtifactRoundTrip | internal/client/storage.go:84-188 | the same through upload and download, whatever the interleavings, chunk sizes and workers |
| EndToEnd.DecryptUndoesEncrypt | pkg/cipher/cipher.go:22-68 | splitting off the nonce undoes putting it in front, given that Open undoes Seal |

## Left out

- MinIO, Redis, gRPC, protobuf and TLS: replaced by maps with the atomicity stated above. The session is stored as a value, not as marshalled bytes.
- Redis limits a bit offset to 2^32: a SetBit beyond it is one of the operations that may fail, so results without faults speak of no larger upload (`Delivery.MAX_BITS`).
- AES-GCM, SHA-256 and key files: only a pair of functions in which Open undoes Seal on the plaintext at hand (`EndToEnd.SoundOn`).
- The zip format, compression, file modes and symbolic links: the archive is its list of entries; reading back the zip file at hand is a hypothesis (`EndToEnd.SoundOn`).
- The error path of `zipDirToFile`, which replaces the walk's error by the result of removing the temporary file, and all clean-up of temporary files.
- `List`, `GetFileInfo`, `Delete` as a handler, bucket creation, configuration, command line and interceptors: pass-throughs and plumbing. A deletion is an action of `World`.
- The hash check after a download is commented out in the source, so nothing is claimed about an object that is overwritten while it is read.
- An upload of 2^63 bytes or more declares a negative, and so unknown, length to the store; its final put is treated like any other here.
- Memory limits: a range request with a huge length, or a huge chunk, is served here.
- The decimal rendering of a size; the model stops at the divisor and the unit.
- Downloader.ChunkDownloader.Dispatch: the worker pool runs on a given schedule of steps instead of real goroutines; every schedule is covered.
- Uploader.ChunkUploader.Dispatch: the same holds for the sends of the upload loop; a read of the file that fails is one of the ways a send can end in an error.
