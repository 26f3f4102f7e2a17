# op-log, modelled and proved in Dafny

op-log is an asynchronous file logger. One worker owns a queue of entries per log file and appends them,
compressed, obfuscated and length-prefixed, to binary files that must stay decodable whatever interrupts a write.
This project models that worker in Dafny 4.11 and proves what its code and documentation promise.
`dafny verify dfyconfig.toml` checks everything.

## What is modelled

| module | part of op-log |
|---|---|
| `Bytes`, `SizeField` | bytes, XOR, machine words; the variable-length size field |
| `Messages`, `Format` | what users send to the worker; how an entry and the notices of dropped entries are formatted |
| `Framing` | what whole frames, broken frames and runs of frames *are*, said without any parser |
| `Walker` | `truncated_frame_start` as a function and as a seeking reader; the cut of an interrupted tail |
| `Keystream`, `Zlib`, `Reader`, `Encoder` | checksum and obfuscation, the compressor as an abstract codec, the reference decoder, `encode_frame` |
| `LogFiles` | one log file: the bounded queue and the append protocol against a volume that may fail after any byte |
| `History` | every event that can happen to a file, with the history the promises are about |
| `Conservation` | what no event breaks, whatever the disk does |
| `Recovery` | crash recovery over whole runs, and exactly which interruptions are recovered from |
| `NewFiles` | what the write that creates a file decides for good: header and magic |
| `IdleRemoval` | removing an idle `LogFile` cannot be noticed later |
| `Decoded` | delivery as a reader of the file sees it: lines, in order |
| `Producers` | any number of threads in `send_log`, one step per atomic or channel operation |
| `Service` | the worker loop: messages and ticks in any order, flush, stop |
| `Progress` | when files are written and when they are idle: ticks, intervals, flush messages |
| `Shutdown` | from the worker's turns to the decoded files |
| `Pipeline` | producers, channel and worker interleaved: from the call to the decoded file |
| `Retention` | one pass of the old-file cleanup over a tree, cut off or failing anywhere |
| `CleanUpRules`, `Convergence` | the list of cleanup rules, passes over all of them on one tree, and exactly when they converge |

The pieces connect. The methods of `SeekReader`, `Volume` and `LogFile` are proved to compute the functions
`TruncatedFrame`, `CutTail`, `DiskAfter` and `FileAfter`; `History.Step` is built from those same functions;
`Conservation` and `Recovery` are about runs of `Step`; `Service` is a worker whose files are such histories; `Pipeline`
lets it take its messages from the channel of `Producers`; and `Pipeline.CallsAreReadable` follows the text of one call of
`log` through all of it into what a reader decodes.

## Hypotheses

Stated openly where they are used, and nowhere else:

* `Codec.Lossless`: decompressing what was compressed gives the text back, however it was cut into chunks. How much
  the compressor has emitted at any moment is an arbitrary function.
* `Recovery.BenignWrite`, for a write that reaches the file: the payload stays below 2^35 bytes; a new file is not
  interrupted strictly inside its ten magic bytes; a file that ends in a broken frame is at most 64 MB long. None is
  an artefact: `RecoveryExactly` and `CreationExactly` show, as equivalences, that recovery fails outside them, and
  `NewFiles.RecoveryHappens` that they can be met.
* The length that `metadata` reports is right, and nobody else writes the file (the README of op-log asks for it).

`Conservation`, `Producers`, `Service.StopSettlesEveryEntry`, `Pipeline.MovesKeepLinked`, `IdleRemoval.RunKeepsTwins`,
`Retention` and `Convergence` need none of them.

## Where code and documentation differ

The model follows the code.

* "File header written once when a new log file is created" (README.md:13): the header is written only by an attempt
  that finds the file absent or empty. When the attempt that creates a file is interrupted after at least one byte, the
  header is lost for good, however many attempts follow (`NewFiles.HeaderExactly`, with the run `HeaderCanBeLost`).
* "Readers never meet a block followed by frames it claims to contain" (README.md:135): true of a file
  exactly when it is at most 64 MB long and its broken frame has a payload below 2^35 bytes or fewer than 8 of its own
  bytes on disk (`Recovery.RecoveryExactly`). A file holding 1 to 9 bytes of the magic
  counts as having content and is appended to; it can never be read (`NewFiles.CreationExactly`,
  with the run `MagicCanBeCut`).
* "Deleting files (and empty directories) older than the specified number of days" (README.md:123): the age of a
  directory is never looked at; an empty one goes at once (`Retention.DirectoryGoesExactly`).
* "Deleting is idempotent and every partial pass has already removed something, so it converges"
  (src/clean_up_delete_files.rs:23-24): true of files for every list of rules (`Convergence.FilesConverge`), but not of
  directories. Thirty days on a directory and then ten on one inside it leave an empty directory that only a further pass
  removes (`StricterInsideLitters`). `Convergence.ConvergesExactly` says for which lists of rules it holds.

## Model

| member | source | states |
|---|---|---|
| SizeField.PushSize | src/write_to_file.rs:357-368 | the encoder's loop pushes exactly the encoding of the size behind what is already in the prefix |
| SizeField.GroupsOnDisk | src/write_to_file.rs:357-368 | byte k of a size on disk, in closed form: seven bits, low group first, 128 added if another byte follows, XOR 0xC5 |
| SizeField.ReadAfterEncode | src/write_to_file.rs:593-603 | reading an encoded size back, wherever it stands, gives the size and the position behind it |
| SizeField.EncodingsArePrefixFree | src/write_to_file.rs:357-368 | no encoding is a prefix of the encoding of another size |
| SizeField.CanonicalExactly | src/write_to_file.rs:593-603 | a field that reads as n is the encoder's own for n if and only if it does not end in an idle group |
| SizeField.CutFieldIsShort | src/write_to_file.rs:83-98 | a field broken off anywhere reads as unfinished, never as another size |
| SizeField.FiveGroupsExactly | src/write_to_file.rs:94-97 | a size takes at most the five groups the walker looks at if and only if it is below 2^35 |
| SizeField.FiveGroupsStaySmall | src/write_to_file.rs:80-98 | any field of at most five groups reads as less than 2^35 |
| Walker.TruncatedFrameStart | src/write_to_file.rs:59-111 | the seeking reader answers what the walk over the file's bytes answers, never fails when the length is right, and leaves no position outside the file |
| Walker.ExamineFrame | src/write_to_file.rs:70-108 | one round: the 8-byte window decides as the whole file would, no read passes the end, and the seek (back or forth) leaves the reader at the end of the frame |
| Walker.JudgeWindow | src/write_to_file.rs:76-104 | the verdict from a window in 64-bit words: `pos + i + size` does not overflow for any file length an `i64` holds |
| Walker.SkipTo | src/write_to_file.rs:105-107 | the relative seek in `i64` words: its distance does not overflow, and it always succeeds |
| Walker.AddGroup | src/write_to_file.rs:88-94 | one round of the loop: the shifted group fits behind the others in 64 bits, and five of them stay below 2^35 |
| Walker.ReadField | src/write_to_file.rs:80-98 | the loop over the window: "ended inside" and "oversized" are told apart by whether the window was clipped; the 64-bit size does not overflow |
| Walker.ShiftingReadsTheSize | src/write_to_file.rs:80-98 | accumulating groups by shifts gives the size that the recursive reading gives |
| Walker.WindowDecides | src/write_to_file.rs:73-103 | the verdict from the window is the verdict on the file, the unclipped window included |
| Walker.WalkerExactly | src/write_to_file.rs:52-111 | on arbitrary bytes: the answer is k if and only if the file is the magic, whole frames up to k, and from k on a proper prefix of some frame |
| Walker.BoundaryIsNotCut | src/write_to_file.rs:52-58 | a file that ends on a frame boundary gets the answer None |
| Walker.CutTailTwice | src/write_to_file.rs:132-157 | cutting is idempotent, on arbitrary bytes |
| Walker.CutLosesNoFrame | src/write_to_file.rs:139-150 | whatever whole frames follow the magic one behind the other, all of them are kept, on arbitrary bytes |
| Keystream.SeedOfFullProduct | src/write_to_file.rs:258-274 | the wrapped, truncated product masked to 12 bits is the full product modulo 4096, for every random byte and size |
| Keystream.ObfuscateInPlace | src/write_to_file.rs:336-350 | the in-place loop leaves the obfuscated payload and returns the byte sum of the original; its 32-bit steps never overflow |
| Keystream.Advance | src/write_to_file.rs:344-347 | one keystream step in 32-bit words does not overflow and stays below 4096 |
| Keystream.KeyInClosedForm | src/write_to_file.rs:344-347 | the keystream's state after n steps is 2903^n times the seed plus 71 times the geometric sum, modulo 4096 |
| Keystream.ObfuscatedExactly | src/write_to_file.rs:336-350 | each byte on disk is the payload's byte XOR ((2903^(i+1) (rnd size) + 71 (2903^0 + ... + 2903^i)) mod 4096) mod 256, and nothing else is the obfuscated payload |
| Keystream.ByteSumAdds | src/write_to_file.rs:336-342 | the byte sum is the sum of the bytes |
| Bytes.XorBitsExactly | src/write_to_file.rs:349 | a bit of an XOR is set exactly where the two bits differ |
| Keystream.ObfuscateTwice | src/write_to_file.rs:608-614 | obfuscating twice with one seed gives the payload back |
| Reader.Unmask | src/write_to_file.rs:605-614 | the reader's own loop over a payload, in its own arithmetic, undoes the closed form and returns the byte sum |
| Reader.OpensExactly | src/write_to_file.rs:605-620 | a payload opens to what its unmasked bytes decompress to if and only if their sum matches the checksum byte XOR 0x5C |
| Reader.DecodesExactly | src/write_to_file.rs:578-624 | a file decodes to given texts if and only if it is the magic and blocks that carry them, with nothing in between |
| Reader.CarriesExactly | src/write_to_file.rs:587-621 | what one block is: marker, random byte, checksum, size, and that many bytes that open to its text |
| Reader.DecodeFile | src/write_to_file.rs:578-624 | the reader's loop gives the texts of all blocks, or nothing when a block is malformed |
| Reader.BlockReadsAnywhere | src/write_to_file.rs:587-621 | a frame reads the same wherever it stands and whatever follows it |
| Reader.FileReadsBack | src/write_to_file.rs:578-624 | the magic followed by readable frames decodes in full, frame by frame |
| Encoder.FillBatch | src/write_to_file.rs:309-319 | the inner loop takes whole entries, newline-terminated, until a batch passes 64 000 bytes |
| Encoder.BatchEndsWhenFull | src/write_to_file.rs:311-319 | a batch ends with the entry that takes it past 64 000 bytes, or with the last one |
| Encoder.PlanTakesFirst | src/write_to_file.rs:298-329 | the compressor is given header, notice and exactly the first `consumed` entries; entries are left over only past 2 MB emitted, and no chunk is written once 2 MB were passed |
| Encoder.EncodeFrame | src/write_to_file.rs:289-371 | prefix and payload to the byte (0xFF, rnd, byte sum XOR 0x5C, size; the keystream in closed form); they form one frame that the reader opens to header, notice and the first `consumed` entries; at least one entry of a non-empty queue is taken, whatever the compressor emits |
| Encoder.PayloadOpens | src/write_to_file.rs:605-620 | seed, keystream and checksum of the encoder are those the reader recomputes |
| Encoder.FrameBytesIsFrameExactly | src/write_to_file.rs:352-370 | the encoder's frame is one the walker understands if and only if its payload is below 2^35 bytes |
| Format.MagicSays | src/write_to_file.rs:49-50 | the magic is the text "OPLog 1.0" and a newline |
| Format.TrimTakesWhite | src/add_to_log.rs:91-94 | trimming takes whitespace from both ends, all of it, and nothing else |
| Format.WhiteExactly | src/add_to_log.rs:93 | what is trimmed: exactly the characters with the Unicode property White_Space |
| Format.DecimalSays | src/write_to_file.rs:169-172 | the digits in a notice say the number |
| Format.BacklogEntry | src/write_to_file.rs:168-179 | the backlog notice as it stands in the file, with the date in front if the definition has one |
| LogFiles.ShedIsLeast | src/add_to_log.rs:237-244 | the number of oldest entries dropped is the least that restores the cap, and the newest entry survives |
| LogFiles.LogFile.AddToLog | src/add_to_log.rs:225-245 | the least number of oldest entries goes that leaves 8 MB or a single entry, and is counted; the wait starts with the first entry of an empty queue and is not restarted; the time of use is now |
| LogFiles.LogFile.DropOldest | src/add_to_log.rs:239-244 | the loop drops exactly that least number of oldest entries and counts each |
| LogFiles.Volume.CutInterruptedTail | src/write_to_file.rs:132-157 | the file is cut at the broken frame; files over the limit, and files whose length changed during the walk, are left alone |
| LogFiles.LogFile.PrepareFile | src/write_to_file.rs:396-421 | an existing file is cut unless verified; an absent or empty one is created and started with the magic |
| LogFiles.LogFile.AppendFrame | src/write_to_file.rs:435-437 | prefix then payload: a fault after n bytes leaves exactly the first n, and a failed flush leaves all of them and still fails |
| LogFiles.LogFile.DrainWritten | src/write_to_file.rs:439-452 | exactly the encoded entries leave the queue, the drop count is cleared, the tail counts as verified |
| LogFiles.LogFile.WriteToFile | src/write_to_file.rs:373-455 | disk and queue after an attempt under any fault: on failure no entry leaves the queue |
| LogFiles.LogFile.Write | src/write_to_file.rs:159-211 | the attempt with its notice, formatted as the definition says; every failure clears `tail_verified` |
| Conservation.StepKeepsHistory | src/write_to_file.rs:373-455 | each event keeps the queue a suffix of the accepted entries within its cap, deliveries in order, drops accounted for, headers first |
| Conservation.RunKeepsHistory | src/write_to_file.rs:423-446 | over every run, with no disk hypothesis: the queue is the rest of the accepted entries; confirmed frames carry in order exactly the drained entries, no entry twice; reported + counted + forgotten by restarts = dropped; an empty queue has no unreported drop; only a file's first frame has a header |
| Conservation.RecordCarriesQueue | src/write_to_file.rs:431-442 | a frame, confirmed or not, carries accepted entries from the front of the queue: what is decoded beyond deliveries repeats accepted entries |
| Recovery.CutRestoresBoundary | src/write_to_file.rs:405-415 | the cut brings magic, frames and a broken frame back to magic and frames |
| Recovery.StepKeepsInv | src/write_to_file.rs:373-455 | each event keeps the file magic, whole readable frames and at most one broken frame, and a verified tail unbroken |
| Recovery.RunKeepsInv | src/write_to_file.rs:373-455 | the same over every run of logging, writes failing after any number of bytes, restarts, idle removal and deletion |
| Recovery.FileDecodes | src/write_to_file.rs:578-624 | a file on a boundary decodes to precisely header, notice and entries of each of its frames |
| Recovery.SuccessDecodes | src/write_to_file.rs:435-448 | after every successful write the whole file decodes, and its new last frame carries the entries that left the queue |
| Recovery.RecoveryExactly | src/write_to_file.rs:113-150 | a file of the encoder's frames broken off inside one more is brought back to its last boundary if and only if it is at most 64 MB and the broken frame's size fits five groups or fewer than 8 of its bytes landed |
| NewFiles.HeaderExactly | src/write_to_file.rs:400-433 | the first frame of a file has the header if and only if the attempt that created the file landed whole; no later attempt adds it |
| NewFiles.HeaderLeadsExactly | src/write_to_file.rs:400-433 | in the decoded text: the header's line leads the first block if and only if the creating attempt landed whole, and no other block has one |
| NewFiles.HeaderCanBeLost | src/write_to_file.rs:400-431 | a concrete run, for every codec: interrupted right behind the magic, then written successfully, the file has one frame and no header |
| NewFiles.MagicCanBeCut | src/write_to_file.rs:60-62 | a concrete run, for every codec: interrupted after five bytes, then written successfully, the entry counts as written and the file cannot be read |
| NewFiles.RecoveryHappens | src/write_to_file.rs:405-416 | a concrete run, interrupted two bytes into the first frame, that meets every hypothesis and ends with a readable file |
| NewFiles.RunExtends | src/write_to_file.rs:404-431 | while the file is not deleted, it keeps all its frames and no new one has a header |
| NewFiles.CreationExactly | src/write_to_file.rs:60-62 | a file interrupted at its creation is readable after any later recoverable run if and only if the interruption did not fall strictly inside the magic |
| NewFiles.RunKeepsStunted | src/write_to_file.rs:396-416 | a file begun with part of the magic stays so over every run |
| IdleRemoval.RemovalIsLossless | src/clean_up.rs:10-14 | an idle `LogFile` holds no entry and no drop count, and removing it leaves the same bytes and history after every later run, whatever its faults |
| IdleRemoval.RunKeepsTwins | src/add_to_log.rs:199-223 | a removed and later re-created `LogFile` cannot be told from a kept one: the renewed tail check is a no-op |
| Producers.InterleavingsConserve | src/lib.rs:139-154 | for any number of producers and every interleaving: counter + counts in flight + counts in notices = refused entries; every call's entry is sent, refused or still to be tried; each producer's entries keep their order and are, as sent, what it was called with |
| Producers.StepConserves | src/lib.rs:139-154 | each atomic or channel step keeps both sums |
| Producers.StepKeepsOrder | src/lib.rs:151-153 | each step keeps the bounded first-in-first-out order and each producer's own order |
| Producers.CounterNeverWraps | src/lib.rs:132-153 | in every run of fewer than 2^64 steps from the start, the counter and all counts in flight together stay below 2^64 |
| Producers.NextCallReportsAll | src/lib.rs:140-150 | once nobody is inside `send_log`, the next call that finds two free slots sends one notice of all refusals, if there are any, and behind it the entry |
| Producers.OpLogInner.SendLog | src/lib.rs:139-154 | an undisturbed call is one run of the small steps |
| Service.OpLogWorker.Def | src/add_to_log.rs:124-157 | an update keeps the time of last use, a new definition starts it; no other definition and no file changes |
| Service.OpLogWorker.LogEntry | src/add_to_log.rs:159-195 | under an undefined name nothing changes; otherwise the file named by path, name and period, opened with the definition's header, accepts and queues exactly the formatted text (date, space, text; or the trimmed text alone) as its last entry, and no other file changes |
| Service.OpLogWorker.ProcessBundle | src/service.rs:47-51 | all definitions first, then all entries, each in order |
| Service.OpLogWorker.WriteToFiles | src/write_to_file.rs:223-228 | every file is attempted exactly once, and the result does not depend on the map's order |
| Service.OpLogWorker.LogCount | src/write_to_file.rs:215-221 | the sum of all queue lengths |
| Service.OpLogWorker.FlushFiles | src/write_to_file.rs:241-255 | passes with no interval, at least one, until nothing is queued or the deadline comes |
| Service.OpLogWorker.CleanUpIdle | src/clean_up.rs:9-20 | every file but the idle ones, which hold nothing, is left as it was; a definition goes if and only if it asked to, was not used for ten minutes and has no file left in memory |
| Service.OpLogWorker.Run | src/service.rs:11-45 | any schedule of ticks and messages up to stop, then the final flush |
| Service.PassShrinksQueues | src/write_to_file.rs:246-254 | each successful pass of a flush strictly decreases what is queued |
| Service.FlushEmpties | src/write_to_file.rs:241-255 | a flush whose writes succeed ends with empty queues after at most as many passes as entries were queued |
| Service.QueuedIsZeroExactly | src/write_to_file.rs:251-253 | the count is zero if and only if every queue is empty |
| Service.CleanUpDiscardsNothing | src/clean_up.rs:9-20 | the idle cleanup removes only files with nothing queued and nothing to report, touches no other, and keeps definitions that did not ask to go |
| Service.RemovedDefinitionsAreEmpty | src/clean_up.rs:16-19 | a definition goes only once none of its files is in memory |
| Service.ServiceGoesOn | src/service.rs:17-42 | over every schedule all files keep their history, and accepted entries and their fates are only ever added to |
| Service.FlushSettles | src/write_to_file.rs:241-255 | a flush that succeeds leaves every accepted entry drained or counted as dropped |
| Service.OpLogWorker.NoteDeleted | src/clean_up_delete_files.rs:133-138 | exactly the deleted files are gone from disk, and what is in memory stays |
| Service.StopSettlesEveryEntry | src/lib.rs:239-250 | an entry taken before the stop signal, by itself or in a bundle, under a defined name has by worker exit been written by a successful write or dropped and counted, if the final flush succeeds before its deadline |
| Decoded.DrainedReadsBack | src/write_to_file.rs:423-445 | every drained entry stands on a line of its own in a block of the decoded file |
| Decoded.BlocksSay | src/write_to_file.rs:168-179 | every block of the decoded file, to the byte: the header's line if it has one, exactly one line reporting the drops if there were any and none otherwise, then its entries' lines |
| Decoded.DropsAreTold | src/write_to_file.rs:164-179 | on the decoded text: the counts whose report lines stand in confirmed blocks, those reported in files since deleted, those forgotten by restarts and the one still held add up to the entries dropped |
| Decoded.SuccessSays | src/write_to_file.rs:423-452 | the block one successful write adds, from the attempt and the queue alone: header if the file was empty, report at the time of the attempt, at least one entry from the front |
| Decoded.DrainedInOrder | src/write_to_file.rs:423-445 | in the decoded file the drained entries stand in the order they were accepted, one behind the other, each on a line of its own, whatever repeats stand between |
| Shutdown.ServiceCarries | src/service.rs:17-44 | the crash-recovery invariant of all files at once over every schedule |
| Shutdown.StopLeavesEntriesReadable | src/service.rs:28-44 | an entry taken before the stop signal, by itself or in a bundle, can after worker exit be read back from its file, unless it was dropped and counted or the file was deleted since |
| Pipeline.MovesKeepLinked | src/service.rs:17-42 | for any number of producers and any interleaving with the worker: the messages taken are exactly a prefix of those sent, in order, and none behind the stop signal |
| Pipeline.SentIsTaken | src/lib.rs:239-250 | every message sent ahead of the stop signal is taken before the worker exits, in a turn before it stops |
| Pipeline.ServeDefines | src/add_to_log.rs:124-157 | a name that a taken message defined, and none made removable, stays defined over every schedule |
| Pipeline.CallsAreReadable | src/lib.rs:139-250 | for any number of producers and any interleaving: the text of a call that the channel took ahead of the stop signal, under a name defined ahead of it and not removable, can after worker exit be read back, formatted by the definition, from the file it names, unless it was dropped and counted or the file was deleted since |
| Pipeline.NoticesAreReadable | src/lib.rs:140-150 | so can the notice of refused entries: its line tells their number, under the name and date of the call it went ahead of |
| Pipeline.BundlesAreReadable | src/service.rs:47-51 | so can every entry of a bundle |
| Progress.WaitsSinceFirstAdd | src/add_to_log.rs:230-232 | in every reachable state a file with queued entries has waited since the first of them was added to its empty queue |
| Progress.WaitsSinceTurn | src/add_to_log.rs:230-232 | the same over the worker's turns |
| Progress.TickWritesExactly | src/write_to_file.rs:379-389 | a tick writes a waiting file if and only if the turn that put the first entry into its empty queue is at least the definition's interval ago; otherwise disk and queue stay as they were |
| Progress.TickSays | src/write_to_file.rs:159-179 | and the block it adds to the decoded file, with the report as the file's definition formats it at the time of the tick |
| Progress.TickLeavesEmpty | src/write_to_file.rs:379-382 | a file with nothing queued is not touched |
| Progress.CleanUpTickExactly | src/clean_up.rs:10-14 | a file stays in memory if and only if it has entries queued or was brought one less than 600 seconds ago |
| Progress.StopEnds | src/service.rs:28 | the stop signal ends the loop: nothing behind it is taken |
| Progress.FlushMessageEmpties | src/service.rs:29 | after a flush message whose writes succeed before its deadline every queue is empty, whatever the intervals |
| Progress.FlushMessageSettles | src/write_to_file.rs:241-255 | every entry accepted ahead of it and not lost to a restart has been written or dropped and counted, then and over all turns that follow |
| Progress.FlushMessageWrites | src/write_to_file.rs:241-255 | and can be read back right after that turn |
| Progress.DefinitionTakesEffect | src/service.rs:32 | a definition takes effect as it was sent |
| Progress.BundleDefines | src/service.rs:47-48 | a bundle's definitions take effect as sent, the last for a name; other names keep theirs |
| Retention.OldExactly | src/clean_up_delete_files.rs:26-46 | for a positive number of days, a file is old if and only if it was last written (or, failing that, created) that many whole days ago or earlier; one that cannot be dated never is |
| Retention.DeleteFilesInPath | src/clean_up_delete_files.rs:104-149 | the recursive loop under any pattern of failed removals, and the number of files it deleted |
| Retention.UninterruptedIsComplete | src/clean_up_delete_files.rs:104-142 | a pass in which every removal succeeds is a complete pass |
| Retention.InterruptedPassConverges | src/clean_up_delete_files.rs:16-24 | a pass cut off or failing anywhere, then a complete pass at that time or later, gives the tree the complete pass alone gives |
| Retention.PassesConverge | src/clean_up_delete_files.rs:22-24 | the same after any number of interrupted passes |
| Retention.OnlyOldFilesGo | src/clean_up_delete_files.rs:129-140 | a complete pass removes exactly the old files; everything else stays where it was, in order |
| Retention.DirectoryGoesExactly | src/clean_up_delete_files.rs:116-127 | a subdirectory disappears if and only if nothing under it survives |
| CleanUpRules.CleanUpDefinitions.Define | src/clean_up_delete_files.rs:81-92 | the rule becomes the one for its path, other paths keep theirs, and no path comes to be named twice |
| CleanUpRules.UpsertDecides | src/clean_up_delete_files.rs:82-91 | for every path, which number of days counts after an update |
| CleanUpRules.UpsertKeepsOnePerPath | src/clean_up_delete_files.rs:82-91 | an update never makes a list name a path twice |
| CleanUpRules.CleanUpDefinitions.DeleteFiles | src/clean_up_delete_files.rs:151-158 | every rule with a positive number of days is applied to its root, in order, on one tree where roots may contain one another |
| Convergence.FilesGoExactly | src/clean_up_delete_files.rs:104-158 | a complete pass over any list of rules, nested roots included, removes exactly the files that some rule covering them finds old; everything else stays where it was, in order |
| Convergence.FilesConverge | src/clean_up_delete_files.rs:16-24 | for every list of rules, an interrupted pass changes nothing about which files a complete one leaves |
| Convergence.ConvergesExactly | src/clean_up_delete_files.rs:16-24 | the whole tree converges, from every interruption of every tree, if and only if no rule deletes files that earlier rules keep, in a directory that only earlier rules would remove |
| Convergence.StricterInsideLitters | src/clean_up_delete_files.rs:151-158 | a concrete list of two rules that does not converge |
| Convergence.SeparateRootsConverge | src/clean_up_delete_files.rs:151-158 | lists whose roots do not contain one another converge |
| Convergence.CompletePassCleans | src/clean_up_delete_files.rs:104-158 | for a list that converges, a complete pass leaves exactly what its rules ask for, said without any order |
| Convergence.DirStays | src/clean_up_delete_files.rs:116-127 | a rule's root, and every directory not below it, outlives its pass |

## Left out

- zlib itself (RFC 1950 and RFC 1951) and errors its encoder might return: the codec is abstract, its write side cannot fail.
- Timed-out writes that finish later in the background: an attempt's bytes count as landed before the next attempt starts; only the length check after the walk (`Volume.CutInterruptedTail`) sees such a write.
- LogFiles.LogFile.WriteToFile: `create_dir_all` is not modelled (its error is ignored by the source), and a failure before the file is opened, in the tail check or in opening, is one fault, `AtOpen`.
- Walker.ReadField: the source ORs groups that share no bits, the model adds them.
- Reader.DecodeFile: sizes are unbounded and texts are bytes; that a text is valid UTF-8 is not modelled.
- Dates and the Warsaw time zone: the formatted date in front of an entry and the period in a file's name are opaque functions of period and date.
- Format.TrimTakesWhite: works on bytes; that a whitespace character is never found across two others holds of valid UTF-8, which is not modelled.
- Real time, tokio scheduling, fsync: clocks are abstract numbers, ticks come in any order (the source's bias for ticks is one such order), and whether and where a write fails is arbitrary.
- Service.OpLogWorker.WriteToFiles: the worker's files are values in a map, stepped by the functions `LogFiles.LogFile` is proved to compute, not references to `LogFile` objects; a definition's files are found by its name in their key.
- Service.OpLogWorker.LogEntry: two definitions whose paths lead to the same file on disk are two files here; op-log asks users not to do that.
- Retention.DeleteFilesInPath: directories that cannot be read, and metadata that cannot, act like removals that fail; one clock reading serves a whole pass, times are whole seconds.
- CleanUpRules.CleanUpDefinitions.DeleteFiles: a rule's path is the list of names that leads to it, so two spellings of one path are one rule here; links are not followed. Which log files a pass deletes is an arbitrary set in `Service`.
- `def`, `log_bundle` and cleanup messages lost on a full channel: not counted by design; in `Producers` a message of theirs is sent when there is room.
- `get_info`, whose flush is `FlushFiles` and whose counts are informational; waiting on the worker's handle in `shutdown`; `def_system_log`, messages on stderr and their once-per-episode flags, the builders in src/messages.rs, src/bench.rs: no property beyond those stated.
