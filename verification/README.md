# Pixel Vault storage engine: model and proofs

This project models the Bitcask-style storage engine of Pixel Vault (`app/storage`) and the
operations that drive it, and proves what the engine is for: memory agrees with a replay of the
log, a snapshot with the log behind it agrees with a full replay, compaction keeps the photos, a
torn write loses only the torn record, and every photo shown has its blob. Where the code does
not keep such a promise, the exact condition under which it does is proved instead.

Run `dafny verify dfyconfig.toml` to check everything.

## How the model is built

**Bytes.** A file is a string with one character per UTF-8 byte. `Json` prints a flat record as
`json.dumps(..., sort_keys=True, ensure_ascii=False)` does and parses it as `json.loads` does
(escaping as in section 7 of RFC 8259). `LogFormat` adds the checksum, an arbitrary total function
on byte strings. `JsonLexer` is a small automaton for strings and brackets: it shows that no
proper prefix, no proper suffix and no prefix with another record behind it parses as a record.
Nothing is assumed about the checksum; it is not needed to detect a cut record.

**Segments.** `LogReader` states the line-by-line scan and its laws, `LogReplay` the loops over one
segment and over the directory, `TornTail` what happens when a writer reopens a cut segment,
`Names` the file names `segment_NNNN.log`, `LogWriter` the writer with rotation.

**Index and compaction.** `Index` states the two maps, replay and snapshots as functions of values,
`IndexStore` the mutable object. `Compaction` states what one rewrite keeps, `Compactor` the loops.

**The engine.** `Engine` is a state machine over disk (segments, snapshot, blobs) and memory (index
and how far the current operation, snapshot and compaction pass have come). Uploads, thumbnail
updates and deletes are several steps each; so are a snapshot (segment name, then offset, then
copy of the index, then rename) and a compaction (read a segment, look up one photo after the
other, rename). These steps interleave in any order, and a crash can come after any of them.
`EngineInvariant` and `EngineTheorems` prove the invariant, `Recovery` and `Deduplication` state the
consequences, `TornAppend` those of a crash inside the write of a record, `PartialPass` those of a
pass that skips segments, `PendingUpdates` those of consulting the index between an append and its
index update, and `Limits` has runs in which the code falls short.

A restart is a step of the machine exactly when the snapshot is `Usable`. That is a condition on
the snapshot, its old offset and the files as they are, and it is proved, for every reachable
state, to hold if and only if the restart shows the photos of memory.

**Services.** `Services` has `process_upload`, the thumbnail update, `delete_photo`, the snapshot and
compaction routes, start-up and shutdown as methods on the shared disk, index and writer, and
proves each to be a run of the engine. `History` puts them together: after any sequence of them
both start-up paths show exactly the photos in memory.

The heart of the compaction proof is in `EngineInvariant`: because the pass visits the segments
in ascending order, a photo left in an already rewritten segment has no record in a later segment
of the pass (`Clean`), so a tombstone that is dropped has nothing left before it to bring back.

"Live" compares entries that are not tombstones and ignores `offset` and `length`, which a
compaction leaves stale; the segment name is compared. Photo fields that the engine never looks
at (camera, times, coordinates) are opaque values.

## Where the code and its promises part

The code is modelled as it is. Its documentation promises more in these places:

- *A crash in the middle of a compaction pass.* The comment at `app/storage/log_reader.py:153-156`
  calls a stale watermark safe, and `app/storage/compactor.py:12-18` a crash. With an old snapshot
  whose watermark is in a rewritten segment, a restart can bring back a deleted photo
  (`Limits.CrashInPassResurrects`) or lose a live one (`Limits.CrashInPassLoses`, where the old
  offset points into the middle of the only record left). `Recovery.SnapshotRestartIff` says, for
  every crash point of every pass, exactly when the restart is right: the snapshot shows no photo
  of which the log has no record left, and it holds every photo whose last record is in the
  watermark's segment where a replay from the old offset does not read it. With no segment
  rewritten from the watermark on that is always so (`Recovery.SnapshotRestartShowsMemory`), in
  particular with the watermark in the active segment (`Recovery.ActiveWatermarkIsSafe`). A full
  replay is never affected (`Recovery.FullReplayShowsMemory`), and the snapshot that ends a pass
  repairs it (`Recovery.SnapshotAfterPassIsSafe`).
- *A segment that fails to compact is skipped* (`app/storage/compactor.py:250-259`). A later segment
  of the same pass can then drop a tombstone whose photo is still in the skipped one
  (`Limits.SkippedSegmentResurrects`). `PartialPass.PassSafeIff` has the exact condition for any
  set of skipped segments.
- *Between `append` and `put` the index is behind the log*, and neither the compactor
  (`app/storage/compactor.py:134-149`) nor the snapshot (`app/storage/index.py:126-128`) waits. In most
  interleavings that is harmless, and they are steps of the machine. But a pass can drop the only
  record of a new photo (`Limits.UploadDroppedWhilePending`) or undo a delete
  (`Limits.DeleteUndoneWhilePending`), and a snapshot can miss a photo (`Limits.CopyMissesPending`).
  `PendingUpdates.PassWhilePendingIff` and `PendingUpdates.CopyWhilePendingIff` have the exact
  conditions.
- *A writer reopened on a torn tail* appends behind the torn bytes (`app/storage/log_writer.py:123-124`),
  and all records it appends to that segment are lost to every later replay
  (`TornTail.OneTornByteLosesAll`, `TornTail.ReopenSafeIff`).
- *A replay puts tombstones into the index* while a delete takes the entry out
  (`app/storage/index.py:89-96`, `app/storage/index.py:320-322`). After a restart the content of a
  deleted photo is refused as a duplicate (`Limits.DeletedContentIsRefused`), and deleting such an
  entry once more can remove the blob of another photo (`Limits.DeletedTwiceLosesBlob`,
  `Limits.DeleteKeepsBlobsIff`). The agreement of memory, log and snapshot survives such a delete;
  only the claim about blobs is restricted to runs without one. The tombstone is an entry like any
  other to `get` and `all_photos`, so a deleted photo is listed again after a restart
  (`app/routes/photos.py:197-200`); "live" leaves such entries out. `Recovery.ReplayShowsWholeIff` says
  exactly when a replay gives back the whole map.
- `.agents/skills/storage-engine/SKILL.md:21` wants index pointers updated after a compaction; the
  code leaves them as they are (`app/storage/compactor.py:189-192`), and so does the model.

## Model

| member | source | states |
|---|---|---|
| Order.SortedIsAscending | app/storage/log_reader.py:275 | `sorted` lists every element of the directory exactly once, in ascending order |
| Order.AscendingIsSorted | app/storage/log_reader.py:275 | an ascending listing is the only one with its elements, so `sorted` finds it whatever order the directory returns |
| Order.LeMeans | app/storage/log_reader.py:275 | the order is that of strings: the first differing character decides, a proper prefix comes first |
| JsonRoundTrip.ParsePrinted | app/storage/log_writer.py:169 | parsing a printed record map gives the map back, for every map of strings, numbers, booleans, nulls and lists |
| JsonRoundTrip.PrintedThenMore | app/storage/log_reader.py:75-85 | a printed record with any further text but white space behind it is rejected |
| JsonRoundTrip.SpaceAround | app/storage/log_reader.py:75-76 | white space may stand around an object, and nothing else |
| JsonRoundTrip.BrokenString | app/storage/log_reader.py:75-85 | a string that is not closed or holds a raw control character is rejected |
| JsonRoundTrip.NumberText | app/storage/log_reader.py:75-76 | the characters of numbers, and the three literals |
| JsonRoundTrip.ForeignEscapes | app/storage/log_reader.py:75-76 | the escapes that are read though never written: the slash, and codes in upper or lower case |
| JsonRoundTrip.LastMemberWins | app/storage/log_reader.py:75-76 | of two members with one key the last counts |
| JsonRoundTrip.PairText | app/storage/log_writer.py:35 | the exact text of two members: ascending keys, `": "` behind a key, `", "` between members |
| JsonRoundTrip.EscapedCharText | app/storage/log_writer.py:35 | the exact escape of every kind of character |
| JsonRoundTrip.DecimalReadsBack | app/storage/log_writer.py:163-166 | a printed checksum reads back, most significant digit first and without leading zeros, so different ones print differently |
| JsonLexer.AcceptedIsBalanced | app/storage/log_reader.py:75-76 | whatever text the parser accepts has all its strings and brackets closed |
| JsonLexer.PrintedIsEnclosed | app/storage/log_writer.py:169 | a printed record opens its brace with the first byte and closes it only with the last |
| JsonLexer.PrintedIsPrintable | app/storage/log_writer.py:168-169 | a printed record contains no control character, so no newline |
| Models.RecordRoundTrip | app/storage/models.py:10-38 | validating the dumped fields of a photo gives the photo back, and a dump has no field `crc32` |
| Models.ValidationIff | app/storage/models.py:23-38 | a record is accepted exactly when it is the dump of a photo, but for defaults left out and unknown keys, and then it is that photo |
| LogFormat.ChecksumRoundTrip | app/storage/log_reader.py:27-37 | for every record map and every checksum: insert `crc32`, print, parse, remove `crc32` gives back the map, hence the same canonical bytes, and the checksum is accepted |
| LogFormat.DecodePrinted | app/storage/log_reader.py:87-128 | a printed record is taken if and only if the number under `crc32` is the checksum of the canonical bytes of the rest and the rest describes a photo |
| LogFormat.WrongChecksumIsBad | app/storage/log_reader.py:87-108 | a record with another number under `crc32` than the checksum of its canonical bytes, or with none, is rejected, for every checksum function |
| LogFormat.DamagedIsBad | app/storage/log_reader.py:96-108 | a photo record changed after its checksum was computed is rejected, unless both have the same checksum |
| LogFormat.BlankIff | app/storage/log_reader.py:70-73 | a line is skipped exactly when it holds nothing but white space |
| LogFormat.LineText | app/storage/log_writer.py:154-169 | the exact bytes of a line: nine members in the order of their keys, the checksum that of the record without it, a newline |
| LogFormat.LineFraming | app/storage/log_writer.py:168-169 | a record line has no newline but its last byte, is never blank, and stripping it leaves its JSON text |
| LogFormat.DecodeLine | app/storage/log_reader.py:61-118 | the reader takes every line of the writer or the compactor, with or without its newline, for exactly the record written |
| LogFormat.PrefixIsBad | app/storage/log_reader.py:75-108 | every proper prefix of a record is rejected, whatever the checksum function |
| LogFormat.SuffixIsBad | app/storage/log_reader.py:185-219 | every proper suffix of a record line that is more than the newline is rejected |
| LogFormat.TornThenLineIsBad | app/storage/log_writer.py:123-124 | a torn record, even one that lost only its newline, with a whole line written behind it is rejected |
| LogReader.LineLengthAt | app/storage/log_reader.py:64 | `readline` returns the bytes up to and with the first newline, or all that is left |
| LogReader.ScanLinesThen | app/storage/log_reader.py:61-131 | scanning appended records yields them in order with the offsets and lengths `append` gave them, and goes on behind them whatever follows |
| LogReader.ScanStopsAtDamage | app/storage/log_reader.py:96-108 | a whole record with a wrong checksum ends the scan: the records before it survive at their places, none behind it is read |
| LogReader.RecordBytes | app/storage/log_reader.py:112-115 | the segment, offset and length of a record name its bytes: there, for that length, the segment holds its line |
| LogReader.SplitLaw | app/storage/log_reader.py:144-242 | at every record boundary, the records before it and a replay from it make up the replay of the whole segment; offset 0 gives the whole replay |
| LogReader.SeekLaw | app/storage/log_reader.py:170-242 | from a record boundary or the newline just before one a seek reads the rest of the segment, from any other offset nothing |
| LogReader.IntactMeans | app/storage/log_reader.py:61-108 | the count of intact records in a cut segment is the count of bodies that end within it |
| LogReader.TornWrite | app/storage/log_reader.py:61-131 | after a cut at any byte, replay yields exactly the records whose JSON body lies wholly before it, in order, each with its segment, offset and length; one that lost only its newline is one byte shorter |
| TornTail.ReopenAfterCut | app/storage/log_writer.py:103-125 | what a replay finds of a cut segment with records appended behind the cut: all of them at a boundary, else only the records before the torn one |
| TornTail.ReopenSafeIff | app/storage/log_writer.py:123-124 | appending behind a cut loses nothing if and only if the cut is a record boundary |
| TornTail.BoundaryEndsInNewline | app/storage/log_writer.py:116-124 | the writer could tell: a cut is a boundary if and only if the file is empty or ends in a newline |
| TornTail.OneTornByteLosesAll | app/storage/log_writer.py:123-124 | one byte of a torn first record makes a replay lose every record appended to the segment afterwards |
| Names.NameRoundTrip | app/storage/log_writer.py:133 | for counters up to 9999 the name matches the pattern and parses back to the counter |
| Names.NameText | app/storage/log_writer.py:133 | the exact name: prefix, four decimal digits, suffix |
| Names.LongNameIsNoSegment | app/storage/log_writer.py:26 | from 10000 on a name does not match the pattern |
| Names.SegmentIsNamed | app/storage/log_reader.py:24 | every file name that matches the pattern is the name of its counter |
| Names.NameOrder | app/storage/log_reader.py:259-262 | for counters up to 9999, lexicographic order of the names is numeric order |
| Names.ListingOfRange | app/storage/log_reader.py:273-277 | the sorted listing of a directory with segments 1 to n and any other files visits exactly these, in the order of creation |
| LogReplay.ReadLine | app/storage/log_reader.py:64 | the loop to the next newline returns what `readline` returns |
| LogReplay.ReplayFromCursor | app/storage/log_reader.py:62-131 | the read loop, from any cursor, computes the scan |
| LogReplay.ReplaySegment | app/storage/log_reader.py:44-137 | replay of one segment; a missing file yields nothing |
| LogReplay.ReplaySegmentFromOffset | app/storage/log_reader.py:144-252 | replay from an offset, which may lie behind the end of the file |
| LogReplay.ReplayDirectory | app/storage/log_reader.py:255-295 | replay of all segments in listing order |
| LogReplay.ReplayAllOfHolds | app/storage/log_reader.py:255-295 | a replay of a written directory yields exactly the appended records, in the order of the appends, each with the segment, offset and length `append` returned |
| LogReplay.ReplayAfterOfHolds | app/storage/index.py:271-302 | the partial replay reads exactly the watermark's segment from the offset and all later segments whole |
| LogWriter.HoldsAfterAppend | app/storage/log_writer.py:174-177 | an append to the file of the active segment is an append to the last segment, and no other file changes its meaning |
| LogWriter.ReplayIsWhatAppendReturned | app/storage/log_writer.py:139-206 | over any appends and reopenings, across any rotations, the listing of the log grows by exactly what the appends returned, in order |
| LogWriter.ReplayAllIsWhatAppendReturned | app/storage/log_reader.py:255-295 | the same on the bytes: a replay of the directory afterwards yields what a replay before yielded, and then exactly what the appends returned |
| LogWriter.AppendKeepsBounds | app/storage/log_writer.py:201-204 | an append keeps the active segment below the limit and every closed one at the limit or above, by less than its last record |
| LogWriter.RotationBounds | app/storage/log_writer.py:103-137 | the same over any sequence of appends and reopenings |
| LogWriter.EmptyLogIsBounded | app/storage/log_writer.py:107-109 | a new log starts within these bounds |
| LogWriter.OpenOfHolds | app/storage/log_writer.py:103-125 | opening a log opens its last segment, the next one if that is full, the first if there is none; the counters stay contiguous |
| LogWriter.AppendOfHolds | app/storage/log_writer.py:139-206 | on a written directory, an append extends the last segment and rotates exactly when it has reached the limit |
| LogWriter.Writer.constructor | app/storage/log_writer.py:47-70 | opens the highest segment, or the next if that is full, and changes no byte of the log |
| LogWriter.Writer.DiscoverLatestSegment | app/storage/log_writer.py:89-101 | finds the highest counter among the files that match the pattern, 0 if there is none |
| LogWriter.Writer.OpenActiveSegment | app/storage/log_writer.py:103-125 | the segment opened, and that opening creates at most this file |
| LogWriter.Writer.RotateSegment | app/storage/log_writer.py:127-137 | opens the next segment and changes no byte |
| LogWriter.Writer.Append | app/storage/log_writer.py:139-206 | the segment is the active one, the offset its size before, the length that of the line, and there the file holds the line; no other file changes, and rotation follows at the limit; a closed writer changes nothing |
| Index.PutAllIsLast | app/storage/index.py:319-322 | after a replay every photo has the last record read for it, or else the entry it had before |
| Index.ReplayOverlap | app/storage/index.py:283-300 | a replay that starts with a stretch of the log the index has already, and goes on behind it, leaves the entries that one replay of everything leaves |
| Index.SnapshotRestoresPrimary | app/storage/index.py:212-217 | saving and loading a snapshot gives back the primary map, in whatever order the records are put back |
| Index.SnapshotRestoresBoth | app/storage/index.py:126-155 | when content hashes are unique it gives back both maps |
| Index.ApplyKeepsInverse | app/storage/index.py:45-96 | every upload, thumbnail update and delete keeps the hash index the exact inverse of the primary map |
| Index.DeduplicationIsExact | app/services/upload.py:128-173 | over every run from an empty index: inverse maps, no shared hash, and the duplicate check succeeds exactly when the existing photo with that hash can be returned |
| Index.PutAllHashes | app/storage/index.py:55-57 | after a replay the hash index holds exactly the hashes seen, each pointing to a photo that had it |
| Index.PutAllHashIsLast | app/storage/index.py:57 | after a replay each content read leads to the photo of the last record with it, every other to the photo it led to before |
| Index.DuplicateAfterReplay | app/storage/index.py:70-75 | the lookup by content after a replay returns the entry of the photo that had the content last |
| Index.StartUpIsLast | app/storage/index.py:212-231 | after start-up each photo has the last record put for it, and each content leads to the photo of the last record put with it |
| IndexStore.PhotoIndex.Put | app/storage/index.py:45-57 | the photo has this entry, its content leads to it, and nothing else changes |
| IndexStore.PhotoIndex.Delete | app/storage/index.py:77-96 | returns the entry; the hash goes only if it still points to this photo |
| IndexStore.PhotoIndex.SaveSnapshot | app/storage/index.py:100-162 | the file holds the watermark given and every entry of the index exactly once |
| IndexStore.PhotoIndex.ReplayListed | app/storage/index.py:283-300 | a listed segment is skipped, read from the offset or read whole, by its counter |
| IndexStore.PhotoIndex.ReplayAfterWatermark | app/storage/index.py:243-302 | puts the records behind the watermark and returns how many; an invalid watermark replays nothing |
| IndexStore.PhotoIndex.LoadFromLog | app/storage/index.py:306-330 | puts every record of the log in order and returns how many |
| IndexStore.PhotoIndex.LoadFromSnapshotAndLog | app/storage/index.py:166-239 | loads the snapshot and the log behind it; falls back to the whole log when it is missing, unreadable or of another version |
| Compaction.FirstSeenSpec | app/storage/compactor.py:128-132 | the keys of `latest` are exactly the photos with a record, once each |
| Compaction.FirstSeenInOrder | app/storage/compactor.py:130-132 | and they are in the order of the photos' first records |
| Compaction.CompactedSpec | app/storage/compactor.py:128-157 | a rewritten segment holds one record per photo: the segment's last for it, exactly when that is live and the index names this segment |
| Compaction.CompactedFileReplays | app/storage/compactor.py:159-184 | the rewritten file, of any bytes, replays to exactly these records |
| Compaction.CompactionIsIdempotent | app/storage/compactor.py:88-187 | compacting again with the same index leaves identical bytes |
| Compaction.CompactionNeverGrows | app/storage/compactor.py:186-187 | a segment written by `append` never grows |
| Compactor.HoldsAfterPass | app/storage/compactor.py:231-259 | a pass over a directory with any other files compacts exactly the closed segments that do not fail, and leaves the others as they were |
| Compactor.SegmentCompactor.Latest | app/storage/compactor.py:128-132 | the dict holds the last record of every photo, keys in insertion order |
| Compactor.SegmentCompactor.LiveRecords | app/storage/compactor.py:134-157 | the records kept by tombstone and index check |
| Compactor.SegmentCompactor.CompactSegment | app/storage/compactor.py:88-212 | refuses the active segment and a missing file; an error before the rename leaves the segment as it was; else exactly this file is replaced, no temporary file is left, and name, records and bytes are reported |
| Compactor.SegmentCompactor.CompactAllClosed | app/storage/compactor.py:214-277 | tries all closed segments, skips those that fail, reports one result for each of the others in their order, and then saves a snapshot at the writer's position; without a closed segment changes nothing |
| EngineInvariant.TailAfterAppend | app/storage/index.py:283-300 | a record appended behind a watermark at a boundary is read by the replay from it, as its last |
| EngineInvariant.RenameIsHarmless | app/storage/compactor.py:231-259 | renaming a rewritten segment in an ascending pass leaves every photo's last record in place, or removes a tombstone with nothing left before it |
| EngineInvariant.SnapshotAfterRename | app/storage/compactor.py:183-184 | a rename before the watermark's segment leaves all the snapshot is known to cover; one of that segment or a later one still leaves the photos recorded before it |
| EngineTheorems.CrossCheck | app/storage/compactor.py:147-149 | for an index that agrees with the log on the photo: when it places the photo in the segment there is no later record, and otherwise a live record there is superseded by a later one |
| EngineTheorems.PendingCheck | app/storage/compactor.py:147-149 | for the photo whose index update is pending: where the stale index decides soundly, a record it keeps is superseded by none of the pass, and one it drops by a later one |
| EngineTheorems.CopyCovers | app/storage/index.py:126-134 | an index copied after the watermark was read agrees with the log on all that the replay behind the watermark does not read, also while an update is pending whose record that replay reads |
| EngineTheorems.LoadAgrees | app/storage/index.py:166-239 | if no segment from the watermark on was rewritten, what start-up loads agrees with the log on every photo |
| EngineTheorems.RestoresIff | app/storage/index.py:243-302 | photo by photo, start-up shows what memory shows if and only if the snapshot holds what the replay from the old offset misses, whatever was rewritten |
| EngineTheorems.UsableAgrees | app/storage/index.py:166-239 | an index loaded from a usable snapshot agrees with the log on every photo, also behind rewritten segments |
| EngineTheorems.StepKeepsInv | app/storage/compactor.py:124-184 | every step of writer, snapshot, compaction and restart keeps the invariant, in any interleaving, also between an append and its index update; a few are steps only under the conditions named under "Left out" |
| EngineTheorems.RunKeepsInv | app/storage/compactor.py:214-277 | so does every run |
| EngineTheorems.RestartShows | app/storage/index.py:166-239 | with the invariant, a restart with a usable snapshot loads exactly the live photos of memory with its pending update |
| Recovery.FullReplayShowsMemory | app/storage/index.py:306-330 | in every reachable state, mid-operation, mid-snapshot and mid-pass, a replay of the bytes on disk shows exactly the live photos of memory |
| Recovery.SnapshotRestartIff | app/storage/index.py:166-239 | in every reachable state, hence after any number of renames of a pass, a start-up from the snapshot shows exactly the live photos of memory if and only if the snapshot is usable |
| Recovery.RenameKeepsSnapshotIff | app/storage/compactor.py:183-184 | the same for the crash right after any single rename |
| Recovery.SnapshotRestartShowsMemory | app/storage/index.py:166-239 | the snapshot is usable, and both start-up paths agree, when no segment from its watermark on was rewritten since |
| Recovery.ActiveWatermarkIsSafe | app/storage/compactor.py:261-264 | the old snapshot survives a crash anywhere in a pass when its watermark is in the active segment |
| Recovery.SnapshotAfterPassIsSafe | app/storage/compactor.py:261-269 | a snapshot begun after the last rename makes the next restart safe, whatever the one before it was and whatever else happens while it is taken |
| Recovery.ReplayShowsWholeIff | app/storage/index.py:306-330 | in every reachable state a full replay gives back all entries, deleted photos included, if and only if memory has an entry for exactly the photos the log has a record of; live photos are never the difference |
| Deduplication.DuplicateIsFound | app/services/upload.py:128-137 | in every reachable state, after restarts too, the duplicate check succeeds exactly when there is an entry with that content to return |
| Recovery.LivePhotosHaveBlobs | app/services/upload.py:128-173 | at every step of every run in which no tombstoned entry is deleted again while a live photo has its content: every recoverable live photo and every live index entry has its blob, and no two recoverable ones share their content |
| Recovery.LiveEntriesAreLogged | app/services/upload.py:167-173 | at every step of every run each live index entry has a record in the log, also while it is being updated or deleted |
| Recovery.CarefulRunSharesNothing | app/routes/photos.py:304-320 | in those runs no delete takes the content of another live photo, because a live entry shares its content with none |
| Recovery.LiveEntryIsUnshared | app/routes/photos.py:304-320 | a live entry shares its content with no other live photo |
| TornAppend.ReplayAllTorn | app/storage/log_reader.py:61-131 | a full replay of a log whose last append was cut at any byte yields the earlier records, and the last one exactly when its body is complete |
| TornAppend.CrashInAppend | app/storage/log_writer.py:174-177 | a crash inside the last append of any run: a full replay shows the photos of memory before that append or after it, by whether the body is complete |
| TornAppend.CrashInAppendWithSnapshot | app/storage/index.py:243-302 | the same crash with a start-up from a snapshot, if and only if the snapshot is usable with the log before or after the append |
| PartialPass.HomeAfterPass | app/storage/compactor.py:249-259 | after a pass that skips any segments, each photo's last record is where it was, or, if the pass drops its tombstone, where the skipped segments have it |
| PartialPass.PassSafeIff | app/storage/compactor.py:249-259 | such a pass keeps the photos of a full replay if and only if every photo whose tombstone it drops stays deleted in the skipped segments |
| PartialPass.SkipSoundIsSafe | app/storage/compactor.py:250-259 | that is so wherever no skipped segment has a record of a photo whose tombstone is dropped behind it, which is when the engine goes on with such a pass |
| PendingUpdates.PendingStopsLittle | app/storage/compactor.py:137-149 | between an append and its index update a pass still looks up every other photo, and the photo itself when its record is behind the pass, and a snapshot copies the index when the replay from its mark reads the record |
| PendingUpdates.PassWhilePendingIff | app/storage/compactor.py:134-157 | a pass over the first segments that consults the index between an append and its update keeps the photos of a full replay if and only if the new record is behind them, or where the index places the photo already, or the photo was deleted before |
| PendingUpdates.CopyWhilePendingIff | app/storage/index.py:126-144 | a start-up from a snapshot whose copy was taken between an append and its update shows the photos with it if and only if the replay from the watermark reads the new record, or the entry copied shows the same |
| Limits.CrashInPassResurrects | app/storage/compactor.py:12-18 | a run of the engine in which a crash in the middle of a pass brings back a deleted photo |
| Limits.CrashInPassLoses | app/storage/log_reader.py:153-156 | a run in which it loses a live photo, whose record the old offset points into or behind |
| Limits.OffsetCanLandInside | app/storage/log_reader.py:153-156 | for every first photo of that run there is a second whose record the old offset points into |
| Limits.SkippedSegmentResurrects | app/storage/compactor.py:250-259 | a reachable state in which skipping one segment and compacting the next brings back a deleted photo |
| Limits.UploadDroppedWhilePending | app/storage/compactor.py:147-149 | a run up to a look-up between the append of an upload and its index update: the only record of the photo is about to be dropped |
| Limits.DeleteUndoneWhilePending | app/storage/compactor.py:138-149 | a run up to a pass between the tombstone of a delete and the index update: the photo is kept, the tombstone dropped, and a full replay shows it again |
| Limits.CopyMissesPending | app/storage/index.py:126-128 | a run up to a copy of the index between the append of an upload and its index update, with the watermark behind the record: a start-up misses the photo, a full replay has it |
| Limits.KnownHashAfterReplay | app/storage/index.py:320-322 | after a replay the duplicate check knows exactly the contents of the records read, of deleted photos as well |
| Limits.DeletedContentIsRefused | app/storage/index.py:306-330 | a run after which a deleted photo has an entry again and its content is refused as a duplicate, although no live photo has it |
| Limits.DeleteKeepsBlobsIff | app/routes/photos.py:304-320 | a delete leaves every live photo its blob if and only if no other live photo has the same content |
| Limits.DeletedTwiceLosesBlob | app/routes/photos.py:304-320 | a run in which deleting a replayed tombstone removes the blob of a live photo |
| Operations.UploadReaches | app/services/upload.py:128-173 | a complete upload, with or without rotation, is a run of the engine |
| Operations.ThumbnailReaches | app/services/thumbnail.py:131-157 | so is a thumbnail update |
| Operations.DeleteReaches | app/routes/photos.py:304-320 | so is a delete |
| Operations.SnapshotReaches | app/routes/admin.py:62-67 | so is a snapshot |
| Operations.CompactionReaches | app/storage/compactor.py:214-277 | so is a complete compaction pass with its snapshot, also one that skips segments if none of them has a record of a photo whose tombstone it drops |
| Services.StreamToTemp | app/services/upload.py:102-114 | the chunk loop writes and hashes exactly the bytes sent |
| Services.MagicBytes | app/services/upload.py:45-71 | the two signatures, byte by byte |
| Services.ProcessUpload | app/services/upload.py:74-195 | which of the outcomes occurs, and for each the new blobs, log and index; every field of the new record; the temporary file is gone in every case |
| Services.UpdateThumbnail | app/services/thumbnail.py:131-157 | appends and puts the latest entry with the new path; an unknown photo changes nothing |
| Services.DeletePhoto | app/routes/photos.py:304-320 | the tombstone in the log, the entry out of the index, the blob off the disk; an unknown photo changes nothing |
| Services.TakeSnapshot | app/routes/admin.py:59-68 | the snapshot stands at the writer's position and lists the index |
| Services.StartUp | main.py:31-41 | the index is what snapshot and log give, then the writer opens |
| Services.ServeUpload | app/services/upload.py:74-195 | on a running server an upload is a run of the engine, its record with every field is the last for the photo in a replay of the files, a refused one changes nothing, and a duplicate comes with the existing photo of that content |
| Services.ServeThumbnail | app/services/thumbnail.py:131-157 | so is a thumbnail update; the entry and the last record in a replay of the files are the former with the new path |
| Services.ServeDelete | app/routes/photos.py:304-320 | so is a delete, of a live photo or of a replayed tombstone; the entry and the blob are gone, and the last record in a replay is the tombstone |
| Services.ServeSnapshot | app/routes/admin.py:59-68 | so is a snapshot |
| Services.GetIsLastRecord | app/storage/index.py:59-61 | a lookup in memory returns a live photo exactly when its last record in a replay of the log on disk is live, and then that record and its segment |
| Services.ServedHaveBlobs | app/services/upload.py:139-173 | on a running server without a delete that took the content of another live photo, the blob of every live entry is on disk |
| Services.ServeCompaction | app/routes/admin.py:34-46 | so is a compaction pass in which no segment fails, or only ones without a record of a photo whose tombstone is dropped; it reports one result for each segment that did not fail, with its records and bytes before and after; in any case a start-up from its snapshot shows the photos of memory, and a full replay does under the condition of `PassSafeIff` |
| Services.ServeShutDown | main.py:46-59 | so is a shutdown, and it leaves a snapshot fit for the next start |
| Services.ServeRestart | main.py:31-41 | a restart from any reachable state shows the photos that memory showed if and only if the snapshot is usable, and then the server is a state of the engine again |
| Services.ServeFirstStart | main.py:31-41 | the first start on an empty directory is the initial state |
| History.HistoryIsSound | app/storage/compactor.py:214-277 | over every history of uploads, thumbnails, deletes, snapshots, passes and restarts, the snapshot on disk stays usable |
| History.EventDoes | app/storage/index.py:45-96 | what each event of a history does to memory, log, snapshot and blobs, and that an event that does not apply does nothing |
| History.BothRestartsShowMemory | app/storage/index.py:166-239 | over every such history both start-up paths, on the bytes of the disk, show exactly the live photos in memory |
| History.HistoryKeepsBlobs | app/services/upload.py:128-173 | over every such history without a delete that takes the content of another live photo, every live photo has its blob |

## Left out

- SegmentIsNamed: Python's pattern also accepts digits outside ASCII and a trailing newline in a file name; the model takes neither for a segment.
- StepKeepsInv: a restart with a snapshot that is not usable is not a step, because memory and log no longer agree after it; what it shows is the other half of `Recovery.SnapshotRestartIff`.
- LivePhotosHaveBlobs: only for runs that delete no tombstoned entry while a live photo has its content, because otherwise it is false (`Limits.DeletedTwiceLosesBlob`).
- ServeUpload: the photo identifier is new to memory and disk, as a random UUID is taken to be; the segment counter stays below 9999.
- SnapshotRestoresBoth: only for unique hashes; with shared ones the order of the snapshot decides which photo the hash points to.
- BothRestartsShowMemory: crashes come between whole operations here; `Recovery` has them at every step, and `TornAppend` inside a write.
- A pass that skips a segment and then drops a tombstone of a photo which that segment still has is not a run of the machine: what it leaves is stated by `PassSafeIff` and `ServeCompaction`, but not followed through later operations.
- A writer that goes on behind a torn tail: the state a crash leaves is stated by `TornAppend`, what later appends lose by `TornTail`; the machine goes on only from whole records.
- `rewritten` and `sharedDelete` are history variables of the proofs; nothing on disk or in memory has them.
- Concurrent writers: `append` has no lock, so uploads, thumbnail updates and deletes are serial; a thumbnail update that re-read its entry before a delete and appends after it, or two uploads of the same bytes at once, are not modelled.
- RunKeepsInv: a look-up by the compactor of the very photo whose index update is pending is a step unless the new record is among the segments of the pass and the stale index would keep an older record or drop the new one; a copy of the index is a step unless an update is pending whose record the replay from the mark does not read. What the code does in these cases is stated by `PassWhilePendingIff` and `CopyWhilePendingIff`, but not followed through later steps.
- Two compaction passes or two snapshots at the same time, and a directory listing taken while the writer rotates.
- Segment counters above 9999: their names no longer match the pattern, so every statement about a directory is bounded there.
- Failing disk operations other than those named, partial directory updates, `fsync`, the writer lock and file handles; a rename is atomic and an append is durable.
- Text that is not a flat JSON object: nested objects, `NaN`, escapes of code points from U+0080 on, a byte order mark, a line that is JSON but not an object (which raises in the code), numbers in a spelling Python would reprint differently; such lines are rejected or kept as text. The writer never produces them.
- pydantic's conversions and the default of a missing `uploaded_at` (the current time); a record without it is rejected here.
- The JSON text of the snapshot file: it is a value with version, watermark and records, or unreadable; skipping single invalid records in it is left out.
- The index lock, `get_by_hash` races, `count`, `all_photos`, `snapshot_due`, pagination, sorting and media types: easy members.
- Thumbnail and EXIF generation, thumbnail files on disk, SHA-256 (any function), the CRC32 polynomial (any function, no claim about error detection), and the clock.
- HTTP routes, status codes, logging, background scheduling and the front end.
