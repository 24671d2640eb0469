# Crashpad: a model in Dafny

A verified model of the stateful core of Crashpad: the ring buffer that annotations are kept in, the
lock-free list of annotations, the two crash report databases, the Windows metadata file, the settings
file, the upload thread, pruning, and the coalescing of memory ranges in a minidump.

`dafny verify dfyconfig.toml` checks the whole project. Code that works by changing things is modelled
by classes and methods with loops; each is proved against a specification function or an abstract
state, and the properties are proved of those. Concurrent code is modelled by atomic steps, and a run
is any sequence of steps that are enabled.

| file | what it models |
|---|---|
| Bytes, Varint | fixed-width little-endian integers; Base 128 varints with the reader's overflow checks |
| Fifo | the queue the ring buffer is meant to be: whole items, evicted from the front |
| RingModel, AnyRing | the ring as a value: a push on a ring of whole items, and on a ring with any bytes |
| RingBuffer, LengthDelimitedRingBuffer | reads and writes around the end of the array; writer and reader |
| RingBufferAnnotation | the ring as bytes, deserializing them, and the annotation that publishes them |
| AnnotationList | threads inside `Add`, and iterators, step by step |
| Runs | the last step of a run, and the run before it |
| Lifecycle, WinLifecycle | reports as callers see them: what each call answers and does, and what the Windows database does otherwise |
| History | what the calls of a run and their answers say about a report, without any database |
| GenericDatabase, WinDatabase, Bisimulation | the two databases, each proved to do that, and runs on both |
| CleanReports | cleaning one report directory |
| MetadataFile | printing and parsing the Windows metadata file, whole or torn |
| Settings | processes sharing the settings file under file locks |
| UploadThread, PruneReports | the pass over pending reports and pruning, both on the database of GenericDatabase |
| MemoryRanges | dropping, sorting and merging memory ranges |

## Where the code does not do what one would expect

Each of these is proved, with the exact condition under which the expected property holds.

- A push of an item that needs the whole capacity, or is longer than half of it, succeeds without
  storing the item's bytes (`RingModel.PushStoresExactly`; an input in `AnyRing.AcceptedButLost`):
  `WriteBytesToRingBuffer` compares the length with the capacity minus the range to be written, and
  `Push` ignores that it fails.
- After a push the header's range is within the capacity, and as long as the item, exactly if no entry
  that was skipped to make room announced more bytes than were readable (`AnyRing.HeaderSoundExactly`).
  Runs of storable lengths keep to that (`AnyRing.StorableRunsStayWhole`); a run of four pushes that does
  not is in `AnyRing.HeaderLeavesBounds`.
- Offsets advance correctly in 32-bit arithmetic exactly up to a capacity of 2^31
  (`RingModel.AdvanceExact`).
- The databases differ on looking up and deleting a report that is being uploaded, and on completing an
  upload with an identifier that has a NUL, which the Windows metadata file cuts short. The identifier is
  whatever the server answered. Deleting a report during its upload removes its record on Windows, but
  the dump is open and stays; a dump is left without a record exactly by such deletions
  (`WinLifecycle.WinRunsAreSound`), and preparing a report under its identifier is refused there. On
  every other call they agree (`Bisimulation.DifferExactly`; a run up to the first two differences in
  `Bisimulation.PartInUpload`).
- A torn metadata file reads as empty exactly if the last string has no NUL, and a whole one reads back
  exactly if no string has one, all paths are in the directory and the records' size is a 32-bit number
  (`MetadataFile.TornWritesReadEmptyExactly`, `MetadataFile.RoundTripExactly`).
- The age condition rounds its limit toward zero, and so spares reports that are not past the limit
  exactly if the limit is after the epoch or at the start of a day (`PruneReports.AgeSparesYoungExactly`).
- Merged memory ranges have gaps between them exactly if no surviving range that runs past the end of
  the address space touches another one, and are disjoint from all ranges owned elsewhere exactly if no
  owned range overlaps such a range without being dropped, because one of the two runs past the end of the
  address space (`MemoryRanges.MemoryListWriter.CoalesceOwnedMemory`; failing inputs in
  `MemoryRanges.TouchedButNotMerged` and `MemoryRanges.HiddenOverlap`).
- The size condition counts modulo 2^64, and so prunes exactly the reports behind the limit if and only if
  no total above the limit comes back under it (`PruneReports.SizePrunesExactly`; a failing input in
  `PruneReports.WrappedTotalSpares`). Sizes are rounded up correctly exactly if adding 1023 does not
  overflow (`PruneReports.KbRoundsUpExactly`).
- The hourly pace is kept exactly if the time of the last attempt can be read, or the limit is not needed:
  a user requested the upload, the report is not pending, uploads are disabled, or an hour has passed
  anyway (`UploadThread.ProcessedOnTimeExactly`; two uploads within the hour in
  `UploadThread.UnreadableTimeLiftsLimit`).

## Model

| member | source | states |
|---|---|---|
| `Varint.EncodedLength` | client/length_delimited_ring_buffer.h:79-88 | the loop counts the bytes of the encoding of any 32-bit value |
| `Varint.EncodeIsBase128` | client/length_delimited_ring_buffer.h:268-297 | the form of a varint: seven bits to a byte, the least significant first, the top bit set in all bytes but the last, and no longer than needed |
| `Varint.Read` | client/length_delimited_ring_buffer.h:165-205 | a successful read of arbitrary bytes takes one to five of them |
| `Varint.ReadExactly` | client/length_delimited_ring_buffer.h:165-205 | what is read from any bytes: the value of the first one to five bytes that are a varint by their top bits, minimal or not, exactly if it is a 32-bit value |
| `Varint.ConsumedIsTaken` | client/length_delimited_ring_buffer.h:178-204 | a read takes the bytes it says if it succeeds, and at most six whether it does or not |
| `Varint.ReadFits` | client/length_delimited_ring_buffer.h:185-201 | whatever the bytes, a value that was read is a 32-bit value: nothing is lost to a shift |
| `Varint.RoundTrip` | client/length_delimited_ring_buffer.h:165-297 | every 32-bit value reads back from its encoding, whatever follows, and takes exactly its length |
| `Fifo.DrainEncoded` | client/length_delimited_ring_buffer.h:449-470 | popping until failure returns exactly the items that were encoded, byte for byte and in order |
| `Fifo.CutItemNotPopped` | client/length_delimited_ring_buffer.h:449-470 | an item that is cut off anywhere is not popped, nor anything at a delimiter of zero |
| `Fifo.EvictIsLongest` | client/length_delimited_ring_buffer.h:534-553 | eviction keeps the longest run of newest items that fits: it evicts the fewest that make room |
| `Fifo.RejectedExactly` | client/length_delimited_ring_buffer.h:521-533 | refused are exactly the empty item and items whose encoding is longer than the capacity |
| `Fifo.RunKeepsLongestSuffix` | client/length_delimited_ring_buffer.h:509-512 | any run of pushes from empty leaves the longest suffix of the accepted items whose encoding fits the capacity |
| `Fifo.LastStaysLast` | client/length_delimited_ring_buffer.h:509-512 | an item of a storable length that is pushed last is the last one read |
| `Fifo.PushAllIsReadBack` | client/length_delimited_ring_buffer.h:509-512 | of a run of storable lengths, the longest suffix of all its items that fits is left |
| `RingModel.AdvanceExact` | client/length_delimited_ring_buffer.h:141-143 | 32-bit offset sums wrap correctly around the ring if and only if the capacity is at most 2^31 |
| `RingModel.RetainedUntouched` | client/length_delimited_ring_buffer.h:554-577 | a push leaves the bytes of the items it keeps in place, and what it stores follows them directly |
| `RingModel.PushStores` | client/length_delimited_ring_buffer.h:519-579 | a push of a storable length keeps the readable region whole and the write offset at its end, and is one push on the queue; a rejected one changes nothing |
| `RingModel.PushStoresExactly` | client/length_delimited_ring_buffer.h:561-568 | on any valid ring, all items of an accepted length are stored if and only if twice the length fits and the capacity is at least three |
| `AnyRing.PushOnValid` | client/length_delimited_ring_buffer.h:519-579 | on a ring of whole items, a push on any ring is the push of RingModel |
| `AnyRing.MakeRoomOnItems` | client/length_delimited_ring_buffer.h:534-553 | on whole items, making room moves the range past the fewest oldest items that leave the needed bytes free |
| `AnyRing.HeaderSoundExactly` | client/length_delimited_ring_buffer.h:540-577 | after a push on any ring in bounds the header is within the capacity and as long as the item, if and only if no skipped entry announced more bytes than were readable |
| `AnyRing.UnreadableRefuses` | client/length_delimited_ring_buffer.h:540-546 | a push that needs room is refused and changes nothing if the delimiter at the front cannot be read |
| `AnyRing.StorableRunsStayWhole` | client/length_delimited_ring_buffer.h:519-579 | any run of storable lengths keeps the header in bounds and whole items in the ring, those of a run on the queue |
| `AnyRing.HeaderLeavesBounds` | client/length_delimited_ring_buffer.h:540-577 | four pushes that succeed on a ring of three bytes and leave a header beyond its capacity |
| `AnyRing.AcceptedButLost` | client/length_delimited_ring_buffer.h:561-568 | an item of two bytes that a ring of three accepts without any byte of it being written |
| `RingBuffer.ReadBytes` | client/length_delimited_ring_buffer.h:118-146 | reads the next bytes around the end of the array, or fails and changes nothing if the range is shorter |
| `RingBuffer.ReadVarint` | client/length_delimited_ring_buffer.h:165-205 | decodes what the unwrapped bytes of the range encode, and advances past exactly the bytes it took, also when it fails |
| `RingBuffer.WriteBytes` | client/length_delimited_ring_buffer.h:223-250 | writes around the end of the array exactly if the length is at most the capacity minus the range, in 32 bits and whatever the range; fails without effect otherwise |
| `RingBuffer.WriteVarint` | client/length_delimited_ring_buffer.h:268-297 | writes the whole encoding, also past the end of the range, or nothing at all on a range of the full capacity |
| `RingBuffer.VarintAcrossWrap` | client/length_delimited_ring_buffer.h:165-297 | a varint written at any offset reads back from there, around the end or not |
| `LengthDelimitedRingBuffer.SkipFront` | client/length_delimited_ring_buffer.h:541-552 | skips the entry at the front of any range with its delimiter, in 32-bit arithmetic, or says that the delimiter cannot be read |
| `LengthDelimitedRingBuffer.MakeRoom` | client/length_delimited_ring_buffer.h:534-553 | ends with the range that AnyRing says, whatever the bytes, or fails at a delimiter that cannot be read |
| `LengthDelimitedRingBuffer.WriteItem` | client/length_delimited_ring_buffer.h:554-568 | what reaches the array and where the writer stands: all of the item, its delimiter only, or nothing |
| `LengthDelimitedRingBuffer.Writer.constructor` | client/length_delimited_ring_buffer.h:498-500 | a writer starts at offset 0; over an empty ring it is valid and holds no items |
| `LengthDelimitedRingBuffer.Writer.Append` | client/length_delimited_ring_buffer.h:534-578 | on any ring, eviction, write and header update together reach the specified state, or nothing changes |
| `LengthDelimitedRingBuffer.Writer.Push` | client/length_delimited_ring_buffer.h:519-579 | on any ring the state is the one AnyRing says, or nothing changes; on a ring of whole items it succeeds exactly for lengths from one on whose encoding fits, and for storable lengths the ring stays valid and its items are those of a push on the queue |
| `LengthDelimitedRingBuffer.Reader.Pop` | client/length_delimited_ring_buffer.h:434-470 | appends the first item to the target and advances past it; or fails if there is none in order, and then states what became of range and target |
| `LengthDelimitedRingBuffer.Reader.PopAll` | client/length_delimited_ring_buffer.h:434-436 | repeated pops return all items of the readable region |
| `LengthDelimitedRingBuffer.PushAllThenPopAll` | client/length_delimited_ring_buffer.h:434-579 | whatever is pushed in turn, reading returns the longest suffix of the accepted items that fits; of all items if all are storable; and the last one last |
| `RingBufferAnnotation.DeserializeFromBuffer` | client/length_delimited_ring_buffer.h:336-350 | takes over range and bytes of a buffer in order, and changes nothing otherwise |
| `RingBufferAnnotation.DeserializeExactly` | client/length_delimited_ring_buffer.h:336-343 | a buffer is taken exactly if it begins with the eight bytes of magic and version and its data fits |
| `RingBufferAnnotation.SerializedLayout` | client/length_delimited_ring_buffer.h:308-310 | the bytes of the structure: magic, version, offset, length, each with the least significant byte first, and data |
| `RingBufferAnnotation.PrefixReadsBack` | client/length_delimited_ring_buffer.h:336-358 | the written part of a ring, deserialized over any data of the same capacity, shows the same readable bytes, wrapped or not |
| `RingBufferAnnotation.Annotation.Push` | client/ring_buffer_annotation.h:92-107 | on any ring, fails at once while guarded; otherwise pushes, and publishes exactly the written length if that succeeds |
| `RingBufferAnnotation.Annotation.ReadPublished` | client/ring_buffer_annotation.h:102-105 | a copy of the published bytes yields exactly the items of the ring |
| `AnnotationList.LinkingKeeps` | client/annotation_list.cc:49-65 | claiming an annotation, or linking it anew, disturbs neither the chain nor another thread |
| `AnnotationList.PublishingExtends` | client/annotation_list.cc:61-61 | a successful exchange of the head puts the annotation in front of the chain |
| `AnnotationList.ChainInvariant` | client/annotation_list.cc:46-66 | under every interleaving the links from the head lead through exactly the published annotations to the tail |
| `AnnotationList.ListIsExact` | client/annotation_list.cc:46-66 | the list is finite, acyclic and without repetition; a linked annotation is published or owned by exactly one thread in its loop, never both |
| `AnnotationList.AddAddsArgument` | client/annotation_list.cc:46-66 | when Add returns, what it was given is linked; and if this call published it, it is at the head |
| `AnnotationList.LinkedForever` | client/annotation_list.cc:46-66 | what is linked stays linked in every continuation of a run |
| `AnnotationList.RetriesArePaidFor` | client/annotation_list.cc:61-65 | a thread retries, other than spuriously, no more often than other threads publish |
| `AnnotationList.IteratorSeesSnapshot` | client/annotation_list.cc:78-95 | an iterator visits exactly what was published when it began, each once, whatever is added meanwhile, and can go on exactly until it is at the tail |
| `Lifecycle.RunsAreSound` | client/crash_report_database_generic.cc:427-523 | in every run a request for upload implies that the report is not completed, and an upload that it is |
| `Lifecycle.HandlesAreCounted` | client/crash_report_database_generic.cc:565-611 | in every run the attempts of a report are its ended handles, and no report is uploaded with success twice |
| `History.HistoryTells` | client/crash_report_database_generic.cc:342-611 | in every run each property of every report, whether it exists, its phase, creation, size, request, success, identifier and last attempt, is decided by the last call on it that took effect and concerns it |
| `History.HistoryAnswers` | client/crash_report_database_generic.cc:382-523 | in every run each call is answered as the calls before it and their answers say |
| `History.LookUpTells` | client/crash_report_database_generic.cc:661-721 | what lookups and listings return of a report is what its history says |
| `History.SettingsTell` | client/crash_report_database_generic.cc:606-608 | the last attempt time in the settings is that of the last upload that ended |
| `GenericDatabase.Database.LocateAndLock` | client/crash_report_database_generic.cc:628-659 | finds the dump and keeps its lock, or keeps none: not found only if it is in none of the directories, busy only if one of them is locked |
| `GenericDatabase.Database.CheckoutReport` | client/crash_report_database_generic.cc:661-682 | answers busy for an upload, not found elsewhere, and else returns the report's metadata |
| `GenericDatabase.Database.PrepareNewCrashReport` | client/crash_report_database_generic.cc:328-340 | is the call Prepare of Lifecycle |
| `GenericDatabase.Database.FinishedWritingCrashReport` | client/crash_report_database_generic.cc:342-380 | is the call Finish: the dump is in the pending directory, with new metadata |
| `GenericDatabase.Database.LookUpCrashReport` | client/crash_report_database_generic.cc:382-389 | is the call LookUp: the whole report with its path, or busy while it is being uploaded |
| `GenericDatabase.Database.ReportsInState` | client/crash_report_database_generic.cc:684-721 | lists exactly the reports in the directory that are not being uploaded, each once, whole and with its path, in any order of entries |
| `GenericDatabase.Database.GetReportForUploading` | client/crash_report_database_generic.cc:403-425 | is the call BeginUpload: the handle holds the pending lock |
| `GenericDatabase.Database.RecordUploadAttempt` | client/crash_report_database_generic.cc:565-611 | moves and rewrites the report from the handle's copy and records the time |
| `GenericDatabase.Database.RecordUploadComplete` | client/crash_report_database.cc:170-177 | is the call Complete |
| `GenericDatabase.Database.DropUpload` | client/crash_report_database.cc:157-161 | is the call Drop: a failed attempt is recorded |
| `GenericDatabase.Database.MoveToCompleted` | client/crash_report_database_generic.cc:443-462 | the dump and its new metadata are in the completed directory only |
| `GenericDatabase.Database.SkipReportUpload` | client/crash_report_database_generic.cc:427-463 | is the call Skip |
| `GenericDatabase.Database.DeleteReport` | client/crash_report_database_generic.cc:465-487 | is the call Delete: busy while the report is being uploaded |
| `GenericDatabase.Database.MoveToPending` | client/crash_report_database_generic.cc:506-519 | the dump and its new metadata are in the pending directory only, also if the report was there before |
| `GenericDatabase.Database.RequestUpload` | client/crash_report_database_generic.cc:489-523 | is the call RequestUpload: refused for an uploaded report, pending otherwise |
| `WinDatabase.Database.FindSingleReport` | client/crash_report_database_win.cc:391-407 | finds a report in the desired state, and says busy if it is uploading instead |
| `WinDatabase.Database.PrepareNewCrashReport` | client/crash_report_database_win.cc:720-733 | is the call Prepare |
| `WinDatabase.Database.FinishedWritingCrashReport` | client/crash_report_database_win.cc:735-764 | is the call Finish |
| `WinDatabase.Database.LookUpCrashReport` | client/crash_report_database_win.cc:766-779 | finds every report, also one that is being uploaded, and returns it whole with its path |
| `WinDatabase.Database.FindReports` | client/crash_report_database_win.cc:363-374 | lists exactly the reports in a state, each once, whole and with its path |
| `WinDatabase.Database.GetReportForUploading` | client/crash_report_database_win.cc:799-825 | is the call BeginUpload |
| `WinDatabase.Database.RecordUploadAttempt` | client/crash_report_database_win.cc:827-865 | changes the record of an uploading report, and nothing if there is none |
| `WinDatabase.Database.RecordUploadComplete` | client/crash_report_database.cc:170-177 | is the call Complete with the identifier cut at its first NUL, or not found if the report was deleted meanwhile |
| `WinDatabase.Database.DropUpload` | client/crash_report_database.cc:157-161 | is the call Drop, or nothing if the report was deleted meanwhile |
| `WinDatabase.Database.DeleteReport` | client/crash_report_database_win.cc:867-887 | deletes record and dump; of a report that is being uploaded the record only, answering that the file system failed |
| `WinDatabase.Database.SkipReportUpload` | client/crash_report_database_win.cc:889-907 | is the call Skip |
| `WinDatabase.Database.RequestUpload` | client/crash_report_database_win.cc:926-957 | is the call RequestUpload |
| `WinDatabase.FileKeepsRecords` | client/crash_report_database_win.cc:309-355 | the records that the next call reads are those a call wrote, with identifiers up to their first NUL |
| `WinDatabase.StatesOnDisk` | client/crash_report_database_win.cc:105-112 | the states are numbered from pending over uploading to completed |
| `WinDatabase.DatabaseKeptByFile` | client/crash_report_database_win.cc:309-355 | the records of any valid database are the same after they were written to the metadata file and read from it |
| `WinLifecycle.WinRunsAreSound` | client/crash_report_database_win.cc:735-957 | in every run reports are sound, and a dump is left without record exactly if its report was deleted while being uploaded; such a report never comes back |
| `WinLifecycle.LostHandlesExactly` | client/crash_report_database_win.cc:827-844 | the end of an upload is lost exactly if its report was deleted meanwhile: it is answered not found, and no report changes |
| `WinLifecycle.OrphansAreInTheWay` | client/crash_report_database_win.cc:720-733 | a report cannot be prepared under the identifier of a dump that was left behind |
| `Bisimulation.DifferExactly` | client/crash_report_database_win.cc:766-887 | the databases differ on a call if and only if it looks up or deletes a report that is being uploaded, completes an upload with a NUL in its identifier, or uses the identifier of a dump left behind again |
| `Bisimulation.PartInUpload` | client/crash_report_database_win.cc:766-887 | a run of three calls after which looking up and deleting the report are answered differently |
| `Bisimulation.CallWin` | client/crash_report_database_win.cc:735-957 | any call of the Windows database keeps it valid and does and answers what WinLifecycle says |
| `Bisimulation.RunBoth` | client/crash_report_database_win.cc:735-957 | for any run without a call on which they differ, both answer the same to every call and end with the same reports |
| `Bisimulation.RunWin` | client/crash_report_database_win.cc:735-957 | after any run of the Windows database its answers and reports are those of WinLifecycle, and its dumps are those of reports, drafts and reports deleted in upload |
| `Bisimulation.RunGeneric` | client/crash_report_database_generic.cc:342-682 | after any run every report has its dump in exactly one directory with its metadata there only, is what its history says, and its counters agree with it |
| `CleanReports.Directory.CleanEntry` | client/crash_report_database_generic.cc:736-781 | an entry cleans its report exactly if the report has to be cleaned and the entry is the one at which that happens |
| `CleanReports.ExpiresExactly` | client/crash_report_database_generic.cc:130-153 | a lock expires exactly when its time to live is over; never without a time in it, nor while it is modified too far in the future |
| `CleanReports.Directory.Clean` | client/crash_report_database_generic.cc:723-785 | for any entries in any order, and whatever the clock does, exactly the reports that have to be cleaned when their entry is handled are gone, the others are left alone, and the count is the number of those gone |
| `CleanReports.CleanedWhenDirty` | client/crash_report_database_generic.cc:734-781 | a report whose entry is listed is cleaned exactly if it has to be, also if files that are removed before their turn are not listed |
| `CleanReports.LeftInOrder` | client/crash_report_database_generic.cc:739-781 | afterwards a report has a lock that was unexpired when it was looked at, or none and both files or none; one with both files and no expired lock is untouched, and so is any under an unexpired lock |
| `MetadataFile.RecordRoundTrip` | client/crash_report_database_win.cc:122-142 | a record of fixed width parses back to the record that was printed |
| `MetadataFile.AddStringToTable` | client/crash_report_database_win.cc:58-63 | the string is in the table at the index returned, followed by a NUL |
| `MetadataFile.BuildRecords` | client/crash_report_database_win.cc:541-553 | builds the records and the table, or gives up exactly if a path is not in the directory |
| `MetadataFile.Metadata.Read` | client/crash_report_database_win.cc:452-511 | takes over the reports of a file in order and changes nothing otherwise |
| `MetadataFile.OtherFilesReadEmpty` | client/crash_report_database_win.cc:461-470 | a file that does not begin with magic and version reads as empty |
| `MetadataFile.FileLayout` | client/crash_report_database_win.cc:92-142 | the bytes of a file with one report: the order and width of all fields, the string indices and the attribute bits |
| `MetadataFile.Metadata.Write` | client/crash_report_database_win.cc:513-566 | the file is the printed header, records and table, or the header alone |
| `MetadataFile.Metadata.WriteThenRead` | client/crash_report_database_win.cc:309-355 | the next call finds the reports of this one, exactly under the condition of the round trip |
| `MetadataFile.WholeFileReadsBack` | client/crash_report_database_win.cc:177-192 | every report reads back with its strings cut at their first NUL |
| `MetadataFile.RoundTripExactly` | client/crash_report_database_win.cc:452-566 | reading restores every report in order if and only if paths, strings and size are as required |
| `MetadataFile.TornWritesReadEmptyExactly` | client/crash_report_database_win.cc:519-566 | every proper prefix of a written file reads as empty if and only if the last string has no NUL |
| `Settings.LocksKeepInvariant` | client/settings.cc:299-457 | under every interleaving the unlocked file says what the updates written so far add up to, and only the holder of the exclusive lock sees it otherwise |
| `Settings.ClientIdNeverChanges` | client/settings.cc:339-388 | once there are settings, there always are, with the same client identifier |
| `Settings.ReturnsAgree` | client/settings.cc:324-337 | all operations of all processes, recovering or not, ever return one and the same client identifier |
| `Settings.RecoveryNeverFails` | client/settings.cc:427-449 | what a recovery wrote always reads back |
| `Settings.BaseIsFirst` | client/settings.cc:126-131 | all updates start from the settings that were there, or from fresh ones: nothing enabled, no attempt, an identifier created in the run |
| `Settings.NothingEnabledItself` | client/settings.cc:451-457 | on a new installation uploads are enabled only if a setter did so |
| `Settings.SettersKeepEachOther` | client/settings.cc:180-219 | each setting is as the last setter of its kind left it, whatever setters of the other kind came between |
| `Settings.SettersWriteOnce` | client/settings.cc:180-219 | every setter that returned has written exactly once |
| `Settings.UpdatesAreStarted` | client/settings.cc:180-219 | each update that is written is the one its process began, with the value it was given |
| `Settings.ReadyExactly` | client/settings.cc:144-156 | a process is ready exactly if it was initialized, and then there are settings and the file is there |
| `Settings.ReadersShare` | client/settings.cc:324-337 | a reader gets to the exclusive lock only after it found the file corrupt under a shared one |
| `UploadThread.Uploader.ShouldRateLimitUpload` | handler/crash_report_upload_thread.cc:387-421 | limits, and then skips, exactly the reports without request whose last attempt time can be read and was within the hour, or is less than a day in the future |
| `UploadThread.Uploader.ProcessPendingReport` | handler/crash_report_upload_thread.cc:189-279 | database, uploads and readings afterwards are those of the function Processed, of which the next two rows speak |
| `UploadThread.ProcessedExactly` | handler/crash_report_upload_thread.cc:189-279 | which reports are uploaded and which are given up, and what becomes of each; reports that are not pending, and all others, are untouched |
| `UploadThread.ProcessedProgresses` | handler/crash_report_upload_thread.cc:189-279 | whatever the outside answers, the report is not pending afterwards, reports that were not pending are untouched, and no upload is left outstanding |
| `UploadThread.ProcessedOnTimeExactly` | handler/crash_report_upload_thread.cc:189-420 | with the limit on and a clock that does not go back, every upload without request starts an hour after every attempt recorded before, if and only if the last attempt time can be read or the limit is not needed |
| `UploadThread.UnreadableTimeLiftsLimit` | handler/crash_report_upload_thread.cc:394-420 | two reports whose last attempt time cannot be read right after the switch was: their uploads start within the hour |
| `UploadThread.Uploader.CheckOutAndUpload` | handler/crash_report_upload_thread.cc:216-241 | uploads a pending report and leaves any other alone, errors of the checkout included |
| `UploadThread.Uploader.Upload` | handler/crash_report_upload_thread.cc:243-278 | a success is recorded with the response; after any failure the attempt is recorded and the report skipped |
| `UploadThread.UploadIsRecorded` | handler/crash_report_upload_thread.cc:243-278 | a report is uploaded afterwards exactly if the upload succeeded, under the identifier that was answered; any attempt counts, at the time of its end |
| `UploadThread.Uploader.ProcessKnown` | handler/crash_report_upload_thread.cc:136-151 | no known report is pending afterwards, also if the list has duplicates or names completed reports; others are untouched, and the stop flag ends it |
| `UploadThread.Uploader.ProcessListed` | handler/crash_report_upload_thread.cc:169-186 | no listed report is pending afterwards, and the stop flag ends it |
| `UploadThread.Uploader.ProcessPendingReports` | handler/crash_report_upload_thread.cc:127-187 | a full watching pass terminates with every report that was pending completed, all others untouched, the pace kept and the known ones drained; without watching only known reports are touched; and a stop lets at most one report be processed |
| `UploadThread.HourlyLimit` | handler/crash_report_upload_thread.cc:397-400 | a span of w seconds contains at most w / 3600 + 1 uploads without request |
| `PruneReports.SurvivorsAreNewest` | client/prune_crash_reports.cc:55-129 | for every condition, as long as its counts do not overflow, those that stay are the newest: once a report is pruned, all older ones are |
| `PruneReports.SizeKeepsLongest` | client/prune_crash_reports.cc:104-110 | with the size condition the reports before the first pruned one are the longest run of newest reports whose sizes in KB stay within the limit |
| `PruneReports.SizePrunesExactly` | client/prune_crash_reports.cc:104-110 | a report is pruned for size exactly if the reports up to it exceed the limit, if and only if no such total comes back under the limit modulo 2^64 |
| `PruneReports.WrappedTotalSpares` | client/prune_crash_reports.cc:107-109 | a list of reports whose last one is spared although the limit is exceeded |
| `PruneReports.DefaultKeepsLongest` | client/prune_crash_reports.cc:76-83 | with the default condition the reports before the first pruned one are the longest run of newest reports of at most 128 MB and within the age limit |
| `PruneReports.DefaultPrunesExactly` | client/prune_crash_reports.cc:76-129 | the default condition prunes a report exactly if it is from before the age limit or the reports up to it, counted modulo 2^64, exceed 128 MB |
| `PruneReports.AgeSparesYoungExactly` | client/prune_crash_reports.cc:87-97 | reports not past the maximum age are never pruned for it, if and only if the limit is after the epoch or at the start of a day |
| `PruneReports.AgePrunesOld` | client/prune_crash_reports.cc:87-97 | a report a day past the maximum age is always pruned |
| `PruneReports.BinaryDecides` | client/prune_crash_reports.cc:118-129 | a binary condition prunes what both or one of its sides would, and asks the right side exactly if the left leaves it open |
| `PruneReports.KbRoundsUpExactly` | client/prune_crash_reports.cc:106-108 | the size counted is the smallest number of KB that holds the report, if and only if adding 1023 does not overflow |
| `PruneReports.SortByAge` | client/prune_crash_reports.cc:49-53 | the same reports, the newest first |
| `PruneReports.PruneOrdered` | client/prune_crash_reports.cc:55-66 | deletes exactly the reports that the condition, judging in turn, says to prune, and counts them, whatever the counts |
| `PruneReports.PrunedAreBehind` | client/prune_crash_reports.cc:55-66 | as long as counts do not overflow, the pruned ones are exactly those behind the first ones that stay |
| `PruneReports.PruneCrashReportDatabase` | client/prune_crash_reports.cc:29-68 | of all reports not being uploaded exactly those that the condition says to prune are gone, whatever order reports of one time come in; as long as counts do not overflow, the newest stay |
| `MemoryRanges.DetermineMergedRange` | snapshot/memory_snapshot.cc:27-81 | two ranges merge exactly if both are valid and not empty and they overlap or abut; the result covers exactly both |
| `MemoryRanges.ValidExactly` | util/numeric/checked_range.h:62-69 | a range is valid exactly if its end can be computed in 64 bits |
| `MemoryRanges.SurvivorsExactly` | minidump/minidump_memory_writer.cc:292-309 | an owned range survives exactly if it can be merged with no range owned elsewhere |
| `MemoryRanges.DroppedExactly` | minidump/minidump_memory_writer.cc:292-309 | an owned range is dropped exactly if it is valid and not empty and a valid range owned elsewhere has an address in it or next to it |
| `MemoryRanges.SurvivorsAreApartExactly` | minidump/minidump_memory_writer.cc:292-309 | the survivors are disjoint from all ranges owned elsewhere, if and only if no owned range overlaps one without being dropped |
| `MemoryRanges.HiddenOverlap` | minidump/minidump_memory_writer.cc:297-304 | a range past the end of the address space that is kept although it overlaps one owned elsewhere |
| `MemoryRanges.Sort` | minidump/minidump_memory_writer.cc:180-190 | the same ranges in order of address and size |
| `MemoryRanges.MergeNext` | minidump/minidump_memory_writer.cc:203-218 | merges the next range or puts it behind, covering its addresses too |
| `MemoryRanges.MergeSorted` | minidump/minidump_memory_writer.cc:201-219 | covers the same addresses, with gaps between the ranges if no invalid range touches another |
| `MemoryRanges.SeparatedMeansLonely` | minidump/minidump_memory_writer.cc:201-219 | if the merged ranges have gaps between them, no invalid range touched another one |
| `MemoryRanges.TouchedButNotMerged` | minidump/minidump_memory_writer.cc:206-209 | a range past the end of the address space that contains another one and is not merged with it |
| `MemoryRanges.MemoryListWriter.DropRangesThatOverlapNonOwned` | minidump/minidump_memory_writer.cc:292-309 | keeps exactly the survivors, in order |
| `MemoryRanges.MemoryListWriter.CoalesceOwnedMemory` | minidump/minidump_memory_writer.cc:174-220 | covers exactly the survivors' addresses by ranges that are not empty; sorted and with gaps, and disjoint from all ranges owned elsewhere, each if and only if the ranges allow it |

## Left out

- LengthDelimitedRingBuffer.Writer.Push: items of 2^32 - 5 bytes and more, whose encoded size overflows 32 bits; capacities above 2^31, where offset sums do; and rings on which an entry announces so many bytes that the length comes back within the capacity modulo 2^32 while room is made, so that the range need not get shorter. The same goes for MakeRoom, Append and the annotation's push.
- LengthDelimitedRingBuffer.PushAllThenPopAll: items of unstorable lengths, for which RingModel.PushStoresExactly says that it fails.
- LengthDelimitedRingBuffer.Reader.Pop: ranges longer than the capacity, on which the code would read past the end of the array.
- RingBuffer.WriteBytes: sources longer than the whole array, which the code would copy past its end on some ranges.
- RingBuffer.WriteVarint: encodings longer than the whole array.
- MetadataFile.Metadata.Write: string tables whose offsets overflow 32 bits, on which the program stops.
- MemoryRanges.MemoryListWriter.CoalesceOwnedMemory: the case that all survivors are empty, in which the code takes the front of an empty vector; and the contents of the ranges.
- PruneReports.SurvivorsAreNewest: conditions whose count overflows 64 bits, on which it fails, as WrappedTotalSpares shows.
- PruneReports.SizeKeepsLongest: limits within 2^54 KB of 2^64.
- UploadThread.Uploader.ProcessPendingReports: other uploaders or callers at work on the database during the pass, settings that cannot be written, and the retries of iOS. Uploads that others have outstanding are allowed.
- WinDatabase.Database.FinishedWritingCrashReport: as all calls there, it works on the records that the metadata file holds between calls; DatabaseKeptByFile ties them to its bytes, as far as numbers and sizes are within the file's limits.
- Interleavings within one call of a database: a call, or the end of an upload handle, is one step. Failing file operations other than those the code itself provokes.
- Attachments, total sizes that include them, metrics, logging and conversions between string encodings.
- Weak memory ordering, and the creation of the annotation list.
- The contents of an upload, how it is sent, and the settings' lock files on Fuchsia.
- The spin guard of annotations is a flag; the registration of an annotation when its size is set is the subject of AnnotationList.
- Process launch, signals, ports and injection in the client; handlers; the other writers of minidump streams; simple dictionaries and address bags: plumbing, or easy members.
