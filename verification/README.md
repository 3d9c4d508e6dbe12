# CD-Grab in Dafny

CD-Grab copies audio discs with drives that misread. It reads every sector until the same
checksum has come up often enough and keeps one copy of the audio per sector. This project
models that core and proves what it delivers, together with the other parts of the program that
have a loop worth proving.

| file | what it holds |
|---|---|
| `Votes.dfy`, `Occurrences.dfy`, `Checksums.dfy` | histories of votes, their winner, the counted list kept per sector, the two ways of finding its most common element |
| `Audio.dfy` | frames, the drive, the progress interface |
| `Passes.dfy` | what passes over the disc do to the reads of all sectors, and what follows for whole runs |
| `Drive.dfy` | what the drive is asked and answers, and that the recorded reads are these answers |
| `SectorDb.dfy` | the sector database as classes: `AddAudio`, `Refine`, `GetStatistics`, `ReadAudio` |
| `Grabbing.dfy`, `CddaWorker.dfy`, `Encoding.dfy` | the loops that drive it: refine until done, the command-line grabber, the worker's `Grab` and `Encode` |
| `WorkerMachine.dfy` | the worker's slots under the re-entrant event loop, as a step machine |
| `WorkerRuns.dfy` | what these slots do undisturbed, tied to the worker's methods |
| `CdText.dfy` | the CD-Text splitter |
| `Nrg.dfy`, `NrgRoundTrip.dfy` | the Nero image walker |
| `Toc.dfy`, `DiscCache.dfy`, `Cddb.dfy` | table of contents, disc-info cache, disc ID |
| `Bytes.dfy`, `Options.dfy` | big-endian numbers, optional values |

The drive is an arbitrary function of the sector and of the number of reads before, so it may be
as adversarial as it likes. Every driver loop is proved to record exactly the drive's answers
(`Drive.Records`), so that bounds on what the drive can answer bound what it is asked for. The
CRC is an arbitrary function from frames to 32-bit values; where a statement is about audio and
not about checksums it assumes that no wrong read of that sector has the checksum of the true
one. Each sector carries a ghost history of its reads, and the invariant of the database says
that audio, checksum and counts are what that history makes of them.

Where the code differs from what one would expect, the model follows the code:

- The header says that the data of the most common checksum is kept. While all checksums of a
  sector differ, what is kept is the latest read (`Votes.IsLeader`, `Passes.DistinctKeepsLatest`).
- A CUEX table loses its last point (`NrgRoundTrip.LastCuesCount`), because the loop bound
  forgets the chunk header. Track and CD-Text records are longer than the 8 bytes missed.
- The size of an unknown chunk is added to 8 in 32 bits, so a size of 2^32 - 8 keeps the walker
  where it is for ever, and a larger one makes it take bytes of the chunk's header for the next
  chunk (`NrgRoundTrip.OversizeChunkDerails`).
- A track numbered 99 is dropped from the record as if it were the lead-out, and the disc is not
  found again (`DiscCache.NinetyNinthTrackIsLost`); `DiscCache.CreatedAgreesIff` says
  exactly for which discs the keys agree.
- `Query` asserts that both hashes agree; `DiscCache.MergedAgreesIff` says exactly when they do.
- `Encode` always hands over whole buffers; the stream is rounded up to 64 frames, and the tail
  repeats the previous buffer (`Encoding.RunOut`).
- `Grabber::Encode` asserts that the run-out is shorter than 64 frames, which fails for a disc
  whose length is a positive multiple of 64 (`Encoding.AssertedRunOutLength`).
- `FromFrame` reduces the seconds modulo themselves, so it gives back a time stamp exactly when
  its seconds are 0 and its minutes are not (`TableOfContents.FromFrameLosesSeconds`).
- `Grabber::Grab` never recomputes its statistics; only a pass that reads nothing ends its loop
  (`Grabbing.EndsEmpty` in the contract of `Grabbing.Grabber.Grab`). So the callback leaves a
  sector unsettled exactly when it refuses the first report of a pass that finds one
  (`Grabbing.OnlyAFirstReportEndsIt`); a refusal after some reads cuts the pass short, and the
  next pass goes on (`Grabbing.RefusalMidwayIsPassedOver`).

## Model

| member | source | states |
|---|---|---|
| Votes.TopCountIsMaximum | libCdGrab/file/sectorDb.cc:109-126 | the top count of a history is reached by some value and exceeded by none |
| Votes.LeaderIsUnique | libCdGrab/include/cdgrab/file/sectorDb.h:71-73 | a history determines one winner |
| Votes.OnlyTheNewVoteCanTakeTheLead | libCdGrab/file/sectorDb.cc:246-257 | a further read either keeps the winner or wins itself, so one copy of the audio is enough |
| Votes.ReignStartCharacterised | libCdGrab/file/sectorDb.cc:250-254 | the read at which the present winner last took the lead has the winner's checksum, and the winner has led since |
| Votes.Pigeonhole | libCdGrab/file/sectorDb.cc:289-309 | with k candidates and at most c votes each there are at most k*c votes |
| Occurrences.OccurenceList.PushBack | libCdGrab/include/cdgrab/file/sectorDb.h:24-33 | the list stays the tally of everything pushed: distinct values, exact positive counts, in order of first appearance |
| Occurrences.OccurenceList.Sum | libCdGrab/include/cdgrab/file/sectorDb.h:40-46 | the sum of the counts is the number of values pushed |
| Occurrences.MostCommonOccurence.Compute | libCdGrab/file/sectorDb.cc:112-126 | finds the maximal count and the first-inserted value that has it; count 0 and a blank value for nothing |
| Occurrences.FirstMaximumOfTally | libCdGrab/file/sectorDb.cc:120-125 | the first maximal element of the tally is the first-inserted value of maximal count in the raw history |
| Occurrences.CopyRuleFindsTheLeader | libCdGrab/file/sectorDb.cc:248-254 | the test "count at most 1 or other checksum" decides rightly whether the new read is the new winner |
| SectorChecksums.Insert | libCdGrab/file/sectorDb.cc:144-147 | insertion into an ordered set keeps it strictly ascending and adds just the element |
| SectorChecksums.MostCommon.Compute | libCdGrab/file/sectorDb.cc:132-161 | finds the maximal count of a plain list and the least value that has it |
| SectorChecksums.BothVotes | libCdGrab/file/sectorDb.cc:109-170 | computed on the same history, the counted vote and the plain vote return the same count, and the same value exactly when the first-inserted maximum is the least, so always when the maximum is unique |
| SectorChecksums.VotesDifferOnATie | libCdGrab/file/sectorDb.cc:184-189 | on a tie the two votes differ: first-inserted against least |
| Audio.AudioReader.ReadAudio | libCdGrab/include/cdgrab/gpc.h:153-154 | fills the buffer with the drive's next answer and logs the sector |
| Audio.SectorDbProgress.OnSectorProgress | libCdGrab/include/cdgrab/file/sectorDb.h:59-64 | the reply of the three implementers: always on, what the callback says, on until a Cancel was handled |
| Audio.SectorDbProgress.ProcessEvents | gui/CddaWorker.cc:265-271 | running the event loop sets the cancelled flag exactly when a Cancel is handled in it, and never clears it |
| Audio.SectorDbProgress.Clear | gui/CddaWorker.cc:148-148 | an operation starts with the flag cleared |
| Passes.TargetsAreTheUnsettled | libCdGrab/file/sectorDb.cc:289-296 | the sectors of a pass are exactly those below the threshold at its start, in strictly ascending order |
| Passes.CompletePassAdvances | libCdGrab/file/sectorDb.cc:289-309 | after p+1 complete passes every sector is settled or was read p+1 times |
| Passes.ReadsAreBounded | libCdGrab/file/sectorDb.cc:289-309 | a drive with k different answers for a sector is asked at most k*(min-1)+1 times |
| Passes.ReadsFitBudget | libCdGrab/file/sectorDb.cc:289-309 | whatever the drive answers, no sector is read more often than 2^32*(min-1)+1 times |
| Passes.FewErrorsAreRecoverable | libCdGrab/file/sectorDb.cc:231-258 | fewer errors than the threshold cannot bring a wrong checksum up to it |
| Passes.TruthIsRecovered | libCdGrab/file/sectorDb.cc:231-309 | a sector read until settled with at most e errors holds the true audio after at most min+e reads |
| Passes.SettledOrAllDistinct | libCdGrab/file/sectorDb.cc:246-257 | with threshold 2, a sector has a checksum seen exactly twice and keeps audio with it, or p distinct checksums and keeps the last read |
| Passes.EmptyPass | libCdGrab/file/sectorDb.cc:289-314 | a complete pass that read nothing changed nothing and found every sector settled |
| Passes.PassCountsItsReads | libCdGrab/file/sectorDb.cc:306-308 | a pass adds exactly as many reads as it returns |
| Passes.PassSpendsBudget | libCdGrab/file/sectorDb.cc:289-309 | every read comes out of a finite budget summed over the sectors, from any starting database |
| Passes.RunsConserveReads | libCdGrab/file/sectorDb.cc:271-315 | over any mix of complete, cancelled and resumed passes the reads grow by what the passes return, and settled sectors are left alone |
| Passes.RunsReadOn | libCdGrab/file/sectorDb.cc:289-309 | from any database, n passes over one disc read no sector more than n times more, none that was settled before, none past the threshold, and an unsettled one exactly n times if all were complete |
| Passes.RunsNeverOvershoot | libCdGrab/file/sectorDb.cc:289-309 | from never-read sectors no top count passes the threshold, however the passes were cut short |
| Drive.PassRecords | libCdGrab/file/sectorDb.cc:306-307 | what the sectors gain in one pass is, read by read, what the drive answered to the reads of that pass |
| Drive.RecordsCompose | libCdGrab/file/sectorDb.cc:287-309 | over passes one after the other, resized in between or not, every answer is recorded once, under its sector and in order, and nothing else |
| Drive.RecordsAsked | libCdGrab/file/sectorDb.cc:306-307 | a sector gains as many reads as the drive was asked for it |
| Drive.KindsRecorded | libCdGrab/file/sectorDb.cc:231-244 | a drive that can answer only k checksums for any sector leaves at most k recorded |
| Drive.FewErrorsRecorded | libCdGrab/file/sectorDb.cc:231-258 | a drive that answers wrongly for a sector less often than the threshold leaves its truth recoverable |
| SectorDatabase.Sector.constructor | libCdGrab/include/cdgrab/file/sectorDb.h:85-91 | a new sector is that of an empty history: silence, zero checksum, no counts |
| SectorDatabase.Sector.Add | libCdGrab/file/sectorDb.cc:243-257 | a sector that holds what its reads call for does so after one more |
| SectorDatabase.Sector.TakesLead | libCdGrab/file/sectorDb.cc:246-250 | the copy decision yields winner and kept frame of the longer history |
| SectorDatabase.KeptIsARead | libCdGrab/file/sectorDb.cc:251-254 | the kept frame is one of the reads and has the kept checksum |
| SectorDatabase.CopyRule | libCdGrab/file/sectorDb.cc:246-257 | comparing only the CRC is enough because the block error mask is always 0 |
| SectorDatabase.SectorDb.constructor | libCdGrab/file/sectorDb.cc:208-213 | a new database has that many never-read sectors and the table of contents it was given, if any |
| SectorDatabase.SectorDb.Resize | libCdGrab/file/sectorDb.cc:277-279 | growing adds never-read sectors and changes no other |
| SectorDatabase.SectorDb.AddAudio | libCdGrab/file/sectorDb.cc:231-258 | one more read for the sector, nothing else changed; fails exactly for a sector out of range |
| SectorDatabase.SectorDb.DataIsKept | libCdGrab/include/cdgrab/file/sectorDb.h:71-73 | stored audio and checksum are those the read history calls for |
| SectorDatabase.SectorDb.Report | libCdGrab/file/sectorDb.cc:298-304 | progress is reported before every 256th read, with the size, the sector and the percentage, and only there can the pass be stopped |
| SectorDatabase.SectorDb.ReadSector | libCdGrab/file/sectorDb.cc:306-307 | the drive's next answer becomes the sector's next read |
| SectorDatabase.SectorDb.Pass | libCdGrab/file/sectorDb.cc:287-309 | reads each unsettled sector once in order up to where it was cancelled |
| SectorDatabase.SectorDb.Refine | libCdGrab/file/sectorDb.cc:271-315 | the whole pass: table of contents taken from the drive only if there is none, which sectors are read and in which order, what each gains, the number returned, the reports made, what each says and which sector it names, a multiple of 256 when cancelled, nothing read once the worker's flag is set |
| SectorDatabase.SectorDb.GetStatistics | libCdGrab/file/sectorDb.cc:334-358 | least and greatest top count, mean top count and mean number of reads |
| SectorDatabase.SectorDb.ReadAudio | libCdGrab/file/sectorDb.cc:382-393 | copies the kept frames in order to the front of the buffer and leaves the rest; fails exactly when a sector is out of range, having copied those before it |
| Grabbing.RefineUntilDone | test/testSectorDb.cc:95-101 | refining from empty until a pass reads nothing always ends, with every sector settled, minimum and maximum count equal to the threshold, the reads being the drive's answers; with k possible checksums per sector no more than k*(min-1)+1 passes and reads of a sector, and the truth after min+e reads wherever the drive erred e times, less than the threshold; the table of contents is read if there was none |
| Grabbing.BoundedByTheDrive | libCdGrab/file/sectorDb.cc:289-314 | the pigeonhole bound from what the drive can answer to what it is asked |
| Grabbing.RecoverAll | libCdGrab/file/sectorDb.cc:231-309 | wherever the drive's answers leave the truth recoverable, the stored audio is the truth |
| Grabbing.PassesAreBounded | libCdGrab/file/sectorDb.cc:289-314 | with k kinds of answers there are at most k*(min-1)+1 passes that read anything |
| Grabbing.PassReadsNothingIffMinimumReached | libCdGrab/file/sectorDb.cc:334-358 | a complete pass returns 0 exactly when the minimum of the statistics has reached the threshold |
| Grabbing.MinimumTells | gui/grabber.cc:233-233 | the statistics' minimum reaches the threshold exactly when all sectors are settled |
| Grabbing.ExactAtExit | libCdGrab/file/sectorDb.cc:334-358 | at the end of the loop minimum and maximum are both the threshold |
| Grabbing.AfterFourPassesGraded | gui/CddaWorker.cc:172-182 | the dichotomy of a sector after the worker's passes, on the stored audio and checksum |
| Grabbing.Grabber.Grab | gui/grabber.cc:207-251 | the passes made, each with its calls of the callback: every pass but the last read something and the last did not; all sectors end settled exactly when the first report of every pass that found an unsettled one was accepted; only the drive's answers are recorded, and no settled sector is read; a new database carries the disc's table of contents |
| Grabbing.Grabber.RefineUntilNothingRead | gui/grabber.cc:233-249 | the loop ends for every drive and every callback, from any database, after the first pass that reads nothing and not before |
| Grabbing.OnlyAFirstReportEndsIt | gui/grabber.cc:233-249 | a sector stays unsettled exactly when the first report of the last pass was refused and that pass had found one |
| Grabbing.LoneRefusalsDoNotEndIt | gui/grabber.cc:223-249 | a callback that accepts the first call, the one after each finished pass, and one of any two in a row gets all sectors settled |
| Grabbing.RefusalMidwayIsPassedOver | gui/grabber.cc:233-249 | on a new disc of at least 257 sectors, refusing only call number 1 cuts the first pass at 256 reads and all sectors end settled |
| Grabbing.GrabRefusedMidway | gui/grabber.cc:207-251 | a grab of such a disc with such a callback: the first of several passes reads 256 sectors, and all end settled |
| Worker.CddaWorker.Grab | gui/CddaWorker.cc:139-187 | busy changes nothing; otherwise the lock is freed again and, from any database, there are one to four passes, at most four more reads of each sector and none of a settled one, exactly four of one left unsettled by an uncancelled grab, all of them the drive's answers; an uncancelled grab of a new database leaves every sector with a checksum seen twice or with four distinct reads and the last kept; cancelled means that the event loop handled a Cancel during this very grab, whatever happened before |
| Worker.CddaWorker.RefineFourTimes | gui/CddaWorker.cc:172-182 | from any database: the passes composed, fewer than four only if the last read nothing, and what each sector gained |
| Worker.EndsAfter | gui/CddaWorker.cc:175-182 | stopping early at a pass that read nothing leaves an uncancelled grab where four passes would |
| Worker.CddaWorker.Encode | gui/CddaWorker.cc:190-252 | from the replies of the event loop alone: if a Cancel is handled after frame 1024j+64 with frames left, just the frames up to there are handed over, and otherwise the whole disc, rounded up, with one call of the event loop for every 1024 frames begun; cancellations before this operation do not count |
| Worker.CddaWorker.EncodeChunks | gui/CddaWorker.cc:212-251 | the chunk loop with its one buffer hands over what the replies call for |
| Worker.CddaWorker.Process | gui/CddaWorker.cc:222-236 | a chunk overwrites the front of the buffer, the whole buffer is appended, and the event loop runs exactly at multiples of 1024 sectors |
| Encoding.ChunkStep | gui/CddaWorker.cc:239-242 | a full buffer carries the stream 64 frames further |
| Encoding.RunOut | gui/CddaWorker.cc:244-246 | the run-out completes the stream: every frame once in order, length a multiple of 64 frames, the surplus equal to the samples 64 frames earlier |
| Encoding.CutAsTold | gui/CddaWorker.cc:229-239 | a loop left for a Cancel stopped right after the chunk in which it was handled |
| Encoding.CompleteAsTold | gui/CddaWorker.cc:229-246 | a completed stream made one call for every 1024 frames begun and no call before the last was refused |
| Encoding.AssertedRunOutLength | gui/grabber.cc:340-347 | exactly when the asserted bound on the run-out holds |
| WorkerMachine.StepKeepsInv | gui/CddaWorker.cc:19-48 | every step of every slot keeps the nesting and the lock consistent |
| WorkerMachine.RunTakesAndFrees | gui/CddaWorker.cc:22-38 | a slot takes the lock only on entry when it is free, and frees it only if it took it |
| WorkerMachine.OneOwnerAtMost | gui/CddaWorker.cc:108-112 | in every reachable state the flag is set exactly when one active slot owns the lock, never two, and at most three slots are nested |
| WorkerMachine.LockTakenOnlyWhenFree | gui/CddaWorker.cc:25-29 | no step takes the lock while it is held |
| WorkerMachine.FlagClearedByNewOwnerOnly | gui/CddaWorker.cc:141-148 | the cancelled flag is cleared only by a slot that just took the lock |
| WorkerMachine.CancelStopsEverySlot | gui/CddaWorker.cc:133-136 | a Cancel handled inside an operation finds every active slot at a point where it will notice |
| WorkerMachine.StoppedRun | gui/CddaWorker.cc:239-271 | from then on nothing is read or encoded until the lock is taken anew |
| WorkerMachine.OwnerStays | gui/CddaWorker.cc:22-38 | while a slot that holds the lock has not returned, it holds the lock and nobody takes it anew |
| WorkerMachine.NoCancelIsLost | gui/CddaWorker.cc:265-271 | over every run: after a Cancel during Grab or Encode no further sector is read, no chunk appended, and the flag stays, as long as that operation has not returned, and then until the lock is taken again |
| WorkerMachine.CancelledOperationReturns | gui/CddaWorker.cc:174-199 | whatever disc and files answer and whatever slots run in between, a cancelled operation that gets its turn again and again comes off the stack with the lock free, nothing read or encoded meanwhile |
| WorkerMachine.NestedSlotsOnlySetTheFlag | gui/CddaWorker.cc:59-60 | to the operation holding the lock, slots run inside its event loop can do nothing but set the flag |
| WorkerRuns.UndisturbedGrab | gui/CddaWorker.cc:139-187 | alone, a Grab slot makes exactly the passes of the worker's uncancelled grab, reads their sectors in order and frees the lock, cancelled before or not |
| WorkerRuns.ScanAll | libCdGrab/file/sectorDb.cc:289-309 | the scan of the slot is a complete pass |
| WorkerRuns.UndisturbedEncode | gui/CddaWorker.cc:190-252 | alone, an Encode slot hands over the chunks from sector 0, 64, 128 and so on over the disc and frees the lock |
| WorkerRuns.UndisturbedPoll | gui/CddaWorker.cc:64-90 | alone, a Poll slot ends with the status it read noted and nothing else changed |
| CdText.PackRoundTrip | libCdGrab/MtFuji/cdtext.cc:7-20 | parsing a pack gives back its fields |
| CdText.CdTextPacketCollectorSimple.Add | libCdGrab/MtFuji/cdtext.cc:47-56 | the loop feeds the text character by character to the per-track map |
| CdText.SplitTerminated | libCdGrab/MtFuji/cdtext.cc:47-62 | splitting NUL-terminated strings with any padding gives the map of the non-empty ones |
| CdText.GetCdText | libCdGrab/gpc.cc:557-597 | on the bytes of the buffer: titles and performers are split from the texts of the packs whose first byte is 0x80 and 0x81; if those spell out terminated strings with padding, their maps come back |
| CdText.PacksAreRead | libCdGrab/gpc.cc:576-591 | slicing recovers the packs of a transfer |
| CdText.PacksHoldTheTexts | libCdGrab/gpc.cc:576-591 | the texts of the packs of one type are the bytes 4 to 15 behind each such type byte |
| CdText.CdTextRoundTrip | libCdGrab/gpc.cc:557-597 | titles and performers cut into packs and interleaved in any way with others come back from GetCdText as the maps of their non-empty strings |
| Bytes.BytesRoundTrip | libCdGrab/file/nrg.cc:24-62 | a big-endian number reads back |
| Nrg.NrgFile.constructor | libCdGrab/file/nrg.cc:187-191 | nothing parsed yet |
| Nrg.NrgFile.ParseHeader | libCdGrab/file/nrg.cc:200-223 | for every file: finds the footer of either version and walks the chunks from there, or reports that there is none, or that the file is too short for one, and parses nothing |
| Nrg.NrgFile.ParseChunk | libCdGrab/file/nrg.cc:226-272 | for every file: the loop is the walk over the chunks, and tells whether it ends, leaves the file or goes round for ever |
| Nrg.NrgFile.ParseCue | libCdGrab/file/nrg.cc:66-80 | the points whose records start before the bound |
| Nrg.NrgFile.ParseDao | libCdGrab/file/nrg.cc:83-108 | header fields overwritten, tracks appended |
| Nrg.NrgFile.ParseCdText | libCdGrab/file/nrg.cc:111-130 | the entries whose records start before the bound |
| NrgRoundTrip.Spelled | libCdGrab/file/nrg.cc:206-260 | the identifiers the reader looks for are spelled CUEX, DAOX, CDTX, SINF, END!, NERO and NER5 |
| NrgRoundTrip.ChunkReadBack | libCdGrab/file/nrg.cc:235-268 | a written chunk is recognised, its content recovered and its whole length skipped |
| NrgRoundTrip.WalkGetsThrough | libCdGrab/file/nrg.cc:226-272 | the walk gets through written chunks, whatever follows them, and carries what they hold |
| NrgRoundTrip.WalkReadsAll | libCdGrab/file/nrg.cc:226-272 | the walk over written chunks stays in the file, ends at END! and takes from each chunk what it holds |
| NrgRoundTrip.TracksAccumulate | libCdGrab/file/nrg.cc:242-246 | the tracks of all DAOX chunks are concatenated |
| NrgRoundTrip.LastCuesCount | libCdGrab/file/nrg.cc:235-241 | the last CUEX chunk counts, without its last point |
| NrgRoundTrip.LastCdTextCounts | libCdGrab/file/nrg.cc:247-253 | the last CDTX chunk counts, complete |
| NrgRoundTrip.UnknownChunkAdvances | libCdGrab/file/nrg.cc:264-268 | an unknown chunk is skipped exactly when its size is below 2^32 - 8; from there on the walker moves by less than 8 bytes, and at that size not at all |
| NrgRoundTrip.ImageRoundTrip | libCdGrab/file/nrg.cc:200-272 | footer found, every chunk header visited once and in order, all tracks collected |
| NrgRoundTrip.OversizeChunkDerails | libCdGrab/file/nrg.cc:226-272 | in an image holding a chunk of such a size everything before it is read; at 2^32 - 8 the walk then never ends, and above that it goes on inside the chunk's header |
| DiscCache.CreateDiscInfo | libCdGrab/DiscInfoDatabase.cc:186-198 | the record says, field by field, what the table says of the disc and of each track below 99, in order |
| DiscCache.Merge | libCdGrab/DiscInfoDatabase.cc:242-249 | names as found, times and codes field by field those of the disc as far as it goes |
| DiscCache.HashTocLoop | libCdGrab/DiscInfoDatabase.cc:52-58 | the hash loop over a table of contents |
| DiscCache.HashDiscInfoLoop | libCdGrab/DiscInfoDatabase.cc:61-68 | the hash loop over a record |
| DiscCache.HashOfOneEntry | libCdGrab/DiscInfoDatabase.cc:42-58 | the hash of a table with one entry, written out: frame, minute, second |
| DiscCache.CreatedHashesAlike | libCdGrab/DiscInfoDatabase.cc:186-198 | with the lead-out last the record hashes like the table, for every hash function |
| DiscCache.MergedHashesAlike | libCdGrab/DiscInfoDatabase.cc:251-256 | so does a merged record with one track less than the table has entries |
| DiscCache.FreeAgreementIsAgreement | libCdGrab/DiscInfoDatabase.cc:42-68 | agreement under the hash that forgets nothing is agreement under every hash |
| DiscCache.CreatedAgreesIff | libCdGrab/DiscInfoDatabase.cc:193-196 | for every table: record and table agree exactly when one entry alone is numbered 99 or more and no later one starts at another time |
| DiscCache.NinetyNinthTrackIsLost | libCdGrab/DiscInfoDatabase.cc:194-194 | a disc whose track is numbered 99 gets a record with another hash |
| DiscCache.MergedAgreesIff | libCdGrab/DiscInfoDatabase.cc:256-256 | exactly when the asserted agreement of the two hashes holds |
| DiscCache.DiscInfoDatabase.Has | libCdGrab/DiscInfoDatabase.cc:201-204 | whether the key is cached |
| DiscCache.DiscInfoDatabase.Get | libCdGrab/DiscInfoDatabase.cc:207-215 | the cached record or none |
| DiscCache.DiscInfoDatabase.Store | libCdGrab/DiscInfoDatabase.cc:218-228 | the record under its own key, nothing else changed |
| DiscCache.DiscInfoDatabase.Query | libCdGrab/DiscInfoDatabase.cc:231-265 | no answer stores nothing; an answer is merged, field by field, and stored under its own key |
| DiscCache.GetInfo | gui/grabber.cc:163-187 | cached record unchanged; otherwise the CD-Text's own names if there is an artist and a title, or else those CDDB found with the disc's times; and the cache after it |
| DiscCache.LaterVisitHits | gui/grabber.cc:163-187 | a disc seen once is found by its times after any other visits that store nothing under its key |
| Cddb.CddbQuery.constructor | libCdGrab/cddb.cc:97-116 | offsets, playing time and packed ID of a table of contents |
| Cddb.CddbQuery.Sum | libCdGrab/cddb.cc:133-142 | the total of the decimal digits of the number |
| Cddb.DigitSumIsTotal | libCdGrab/cddb.cc:133-142 | for every sequence of digits, its number has their total as digit sum |
| Cddb.SampleId | libCdGrab/cddb.cc:97-116 | tracks at 0:02 and 3:19 with the lead-out at 6:40 have the ID 15018e02 |
| TableOfContents.FrameRoundTrip | libCdGrab/gpc.cc:74-108 | time stamps and frame numbers convert into each other |
| TableOfContents.FromFrameLosesSeconds | libCdGrab/gpc.cc:81-88 | for valid time stamps, exactly when FromFrame inverts ToFrame, and when it divides by zero |
| Cddb.FieldsDecode | libCdGrab/cddb.cc:112-115 | up to 256 entries and below 65536 seconds the three fields do not overlap and read back |
| Cddb.FieldsDecodeIffTheyFit | libCdGrab/cddb.cc:112-115 | they read back exactly when time and track count fit their fields |
| Cddb.DigitSumModulo9 | libCdGrab/cddb.cc:133-142 | digit sums keep the remainder by 9 |
| Cddb.TopByteModulo3 | libCdGrab/cddb.cc:103-114 | the top byte keeps the sum of the start seconds modulo 3 |
| Cddb.IdIgnoresInnerOrder | libCdGrab/cddb.cc:103-115 | permuting the tracks between the first and the lead-out does not change the ID |

## Left out

- Grabbing.RefineUntilDone: database, counts and reads are unbounded integers; the C++ counts are `int`, and none exceeds the threshold in these runs.
- Audio.AudioReader.ReadAudio: reads one frame at a time, as Refine asks for them; its return code, which Refine ignores, is left out, and a failed read that leaves the buffer alone is an answer like any other.
- SectorDatabase.SectorDb.Report: percentages are real numbers; rounding is not modelled.
- Grabbing.Grabber.Grab: the callback stands for its replies to the reading action, by number of call; its calls for preparing and saving the database, whose replies are ignored, are not modelled.
- Worker.CddaWorker.Grab: the disc status is reduced to audio or not, files are given as an already loaded database or none, and what nested slots do is reduced to the cancelled flag, which `WorkerMachine.NestedSlotsOnlySetTheFlag` justifies.
- WorkerMachine.OneOwnerAtMost: the slots are Grab, Encode, Poll with its RefreshToc, and Cancel; changing or ejecting the device during an operation, the missing device and threads other than the event loop's are not modelled.
- Nrg.NrgFile.ParseChunk: where the C++ reads outside its memory map or does not return, the model stops and says so.
- DiscCache.DiscInfoDatabase.Query: the CDDB lookup is a parameter; the year and lead-out of an empty answer, which the C++ leaves uninitialised, are 0.
- Cddb.CddbQuery.constructor: time stamps are natural numbers, as every reader of a table of contents fills them from bytes, and the table is not empty.
- The sub-channel part of a sector's data, which is never written.
- A sector database used as the reader of another one: the reader interface has one implementer here.
- Saving and loading databases and caches, which are the identity on the model.
- FLAC and Opus encoding beyond the order of samples appended, resampling and cue sheets.
- Drive access, CDDB sockets, the XMCD parser, and the user interface.
- `CdTextPacketCollector`, which nothing uses.
