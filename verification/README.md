# Edgehog device: a verified model of archives, transfers and updates

This project models the parts of the Edgehog Zephyr device library where most of its state and
arithmetic live, and proves what they promise:

- **ztar**, the streaming USTAR codec: a packer that fills whatever buffer it is given and a parser
  that takes its input in arbitrary chunks. The format is the "ustar Interchange Format" of the `pax`
  utility in IEEE Std 1003.1-2017.
- **File transfer of directories**: the explicit-stack cursor that feeds the packer, the recursive
  walk that announces the size and deletes aborted downloads, and the extraction of archives.
- **Over-the-air updates**: event handlers, worker, retries, persisted settings and recovery at boot,
  with a restart possible between any two steps.
- **The file transfer service**: queue, thread, start and stop, and the semaphore shared with updates.

## How it is built

Code that changes things step by step is a class whose methods have the loops, branches and in-place
writes of the original. Each such method is proved equal to a function of its inputs and old state,
and the theorems are about those functions. The two protocols with several threads are state machines;
`OtaDevice` is the worker as sequential code, proved to be a run of the machine.

| files | content |
|---|---|
| `CLib`, `UstarHeader`, `HeaderFormat`, `TarArchive` | C strings and octal numbers; the header block, and what is in it byte by byte; the archive of a list of files |
| `ZtarPack`, `PackTheorems` | the packer, and why buffering does not matter |
| `ZtarUnpack`, `ChunkIndependence`, `ArchiveGrammar`, `TarDownload` | the parser, why chunking does not matter, and that acceptance is the grammar |
| `CodecRoundTrip` | unpacking undoes packing |
| `SafePath`, `TransferProgress` | the path check and the progress reports |
| `FileTree`, `TarCursor`, `Traversal`, `Upload`, `UploadSession` | the walk, the cursor, that they agree, the announced size, and a whole upload |
| `FileSystem`, `Extraction`, `TarEntries`, `Containment`, `DeleteWalk`, `TarExtraction`, `ExtractionResult` | the file system, `mkdir_recursive`, opening and writing entries, what an extraction can touch, the delete walk, the write context with its abort, and what is on disk after an extraction |
| `TreeNames`, `TreeLimits`, `TreeRoundTrip` | the names in a tree, which trees can be uploaded, and that they survive upload and download |
| `Ota`, `OtaSafety`, `OtaTheorems`, `OtaDevice`, `OtaOutcomes`, `OtaRetries`, `OtaFailures` | the update protocol, its invariant, its promises, the code as it runs, how updates end, that failed downloads are tried again, and what is refused, given up and reported |
| `FtService`, `FtTheorems`, `FtProgress` | the file transfer service, what it never does, and what it gets done |

Callbacks and the outside world are parameters: a source of files that may read short and may never
end, parser callbacks that may depend on everything reported so far, the grants of `fs_read` and
`fs_write`, the answers of flash, settings and boot loader, and the times of cancellations and
restarts. `size_t` is 32 or 64 bits wide (`SIZE_MODULUS`), and its wrap-around is written out.

## Where the code does less than one might expect

- A name of more than 100 bytes whose first legal split is at its leading slash comes back without
  that slash, because an empty prefix is read as no prefix (`HeaderReadsBack`, `PackThenUnpack` give
  the exact condition). Names made by the cursor never start with a slash.
- A restart after the new image is confirmed and before Success is published costs the Success: it is
  never published, and Failure is, for an update that is running (`LateRestartCostsSuccess` is exact,
  `LateRestartCanHappen` gives a run).
- Success can be published for an upgrade that was never requested: when state REBOOT is saved while the
  running image is not confirmed, or an upgrade is pending already, and the device then restarts
  (`SuccessWithoutUpgrade` is exact, `UpgradeCanBeSkipped` gives a run).
- A cancel that arrives when the last attempt has already ended well is accepted but changes nothing:
  the update is deployed (`CancelIsFinalUnlessTooLate` is exact, `CancelCanBeTooLate` gives a run).
- The bytes of all download attempts are counted together, so once some have been written a later
  attempt that receives the whole image is not good (`RetryCountsAllAttempts`).
- Members that are not regular files are skipped, but any data they carry is written to the end of
  the file extracted before them, or refused if there is none (`ExtractionIsExact`).
- A worker that cannot be created leaves the run bit set, so updates are refused until a restart
  (`FailedCreationBlocksUpdates`).
- The last published percentage is kept in one byte, so above 255 percent, which repeated attempts can
  reach, it is published with every payload (`PercentIsKeptInAByte`).
- A message that the event handler queues after a concurrent stop has drained the queue is never
  answered or destroyed (`LatePutIsLost`, `LatePutCanHappen`; `DestroyedExactlyWhenTimely` is exact).
- The flowchart of the update procedure in `doc/architecture/OTA Updates.md` (lines 37-83) verifies the
  image before Deploying; the code publishes Deploying first and only then reads the header of the new
  image (`lib/edgehog_device/ota.c:450-466`). The model follows the code.

## Model

| member | source | states |
|---|---|---|
| CLib.StrToOctalOfDigits | lib/edgehog_device/ztar/unpack.c:165-188 | reading a field of octal digits with leading zeros and a NUL gives exactly the number they write |
| CLib.OverlappingCompareFinds | lib/edgehog_device/ztar/unpack.c:313-372 | testing the first byte and comparing the buffer with itself shifted by one succeeds if and only if all bytes are zero |
| CLib.CStrOfTerminated | lib/edgehog_device/ztar/unpack.c:140-163 | a C string ends at its first NUL |
| UstarHeader.RequiredPadding | lib/edgehog_device/include/ztar/core.h:37-39 | padding is below a block |
| UstarHeader.PaddingAligns | lib/edgehog_device/include/ztar/core.h:37-39 | size plus padding is a multiple of 512 |
| UstarHeader.FormatOctalReadsBack | lib/edgehog_device/ztar/pack.c:328-342 | octal formatting succeeds if and only if the value is below 8^(width-1), and the field then reads back as the value |
| UstarHeader.FindSplit | lib/edgehog_device/ztar/pack.c:184-213 | the strchr loop finds the first slash with at most 155 bytes before and at most 100 after it, or finds that there is none |
| UstarHeader.PackableNameMeaning | lib/edgehog_device/ztar/pack.c:184-213 | a name can be stored if and only if it has at most 100 bytes or a slash with at most 155 bytes before and at most 100 after it |
| UstarHeader.BuildHeader | lib/edgehog_device/ztar/pack.c:175-257 | the field-by-field header construction equals the header function, errors included; the buffer is written only on success |
| UstarHeader.PackHeaderAccepts | lib/edgehog_device/ztar/pack.c:175-257 | a header is produced exactly for storable names and sizes below 8589934592, and a name that cannot be stored is reported before a size that cannot |
| UstarHeader.Checksum | lib/edgehog_device/ztar/pack.c:235-244 | the checksum of any block is at most 130560, which is below 8^6, so six digits always suffice |
| UstarHeader.ValidateHeader | lib/edgehog_device/ztar/unpack.c:374-418 | the validation loops compute the header verdict: magic, version, then checksum with the field counted as spaces |
| UstarHeader.FileName | lib/edgehog_device/ztar/unpack.c:140-163 | the rejoined name is a C string that fits the 257-byte buffer |
| UstarHeader.HeaderReadsBack | lib/edgehog_device/ztar/unpack.c:140-188 | a packed header validates, is not the end marker, and reads back as a regular file with the same size; the name comes back unchanged if and only if it is not a long name whose first legal split is its leading slash, which is then lost |
| HeaderFormat.PackedHeaderLayout | lib/edgehog_device/ztar/pack.c:214-252 | every packed header has, at the offsets and in the bytes of the standard: mode 0000644, owner, group and time zero, type 0, magic and version, zeros in the unused fields, the size in eleven octal digits, and in six the byte sum with the checksum field as spaces |
| HeaderFormat.PackedNameLayout | lib/edgehog_device/ztar/pack.c:181-213 | bytes 0 to 99 hold the name, or what follows a slash of it whose front is in the 155 bytes from 345 on, with zeros after both |
| HeaderFormat.VerdictMeaning | lib/edgehog_device/ztar/unpack.c:374-460 | on literal bytes: a header passes exactly with the magic, the version and a checksum field that reads as the byte sum; each refusal comes exactly when the checks before it pass |
| HeaderFormat.OneChangedByteIsCaught | lib/edgehog_device/ztar/unpack.c:374-418 | changing any one byte outside the checksum field of a valid header makes it invalid, by its checksum unless the byte is part of the magic or version |
| HeaderFormat.StrToOctalParses | lib/edgehog_device/ztar/unpack.c:165-188 | a number field is read past leading white space and one sign up to the first byte that is no octal digit |
| HeaderFormat.StrToOctalNeedsDigits | lib/edgehog_device/ztar/unpack.c:180-183 | a number field without a digit holds no number |
| HeaderFormat.TypeMeaning | lib/edgehog_device/ztar/unpack.c:190-211 | byte 156 tells files (48 or 0), directories (53) and unsupported members apart |
| HeaderFormat.SizeField | lib/edgehog_device/ztar/unpack.c:165-188 | bytes 124 to 135 are the size, cut to size_t, or no size without a digit |
| TarArchive.EntryBytes | lib/edgehog_device/ztar/pack.c:175-310 | an entry is one block plus contents plus padding long |
| TarArchive.ArchiveLength | lib/edgehog_device/ztar/pack.c:175-326 | an archive is as long as its entries plus the 1024-byte trailer, and a multiple of 512 |
| ZtarPack.Step | lib/edgehog_device/ztar/pack.c:104-142 | one iteration of the packing loop keeps the state valid, writes at most the space left, and either writes or goes to a lower-ranked state |
| ZtarPack.Fill | lib/edgehog_device/ztar/pack.c:104-142 | the loop ends for every source, endless ones included; on success it stops only when done, when the space is used up, or before a header with under 512 bytes left |
| ZtarPack.ReadStream | lib/edgehog_device/ztar/pack.c:87-149 | a call refuses buffers below 512 bytes and reports exhaustion only when it has nothing to write |
| ZtarPack.PackStream.Init | lib/edgehog_device/ztar/pack.c:57-76 | initialization puts the stream in the first state with zeroed counters |
| ZtarPack.PackStream.HandleNextFile | lib/edgehog_device/ztar/pack.c:155-173 | asks for the next file: new state and code are those of the step function |
| ZtarPack.PackStream.HandleHeader | lib/edgehog_device/ztar/pack.c:175-257 | writes one header block in place: bytes, state and code are those of the step function |
| ZtarPack.PackStream.HandleData | lib/edgehog_device/ztar/pack.c:259-293 | copies what the source granted in place: bytes, counters, state and code are those of the step function, short reads included |
| ZtarPack.PackStream.HandlePadding | lib/edgehog_device/ztar/pack.c:295-310 | writes padding zeros in place as the step function says |
| ZtarPack.PackStream.HandleTrailer | lib/edgehog_device/ztar/pack.c:312-326 | writes trailer zeros in place as the step function says |
| ZtarPack.PackStream.Read | lib/edgehog_device/ztar/pack.c:87-149 | the while loop over the output buffer computes the pure call: code, bytes and new state |
| PackTheorems.CallMakesProgress | lib/edgehog_device/ztar/pack.c:87-149 | every successful call writes at least one byte and at most the buffer, and stops short only before a header or when done |
| PackTheorems.CallbackFailures | lib/edgehog_device/ztar/pack.c:155-276 | a failing callback is reported as such, a read that returns nothing as a truncated file, and padding and trailer never fail |
| PackTheorems.FinalCodeMeaning | lib/edgehog_device/ztar/pack.c:87-149 | packing ends in exhaustion exactly when the source really ends and every file can be packed |
| PackTheorems.StepAdvances | lib/edgehog_device/ztar/pack.c:104-142 | each successful iteration takes its output off the front of what is still to come; a failure is that of the stream or of a read |
| PackTheorems.ReadStreamAdvances | lib/edgehog_device/ztar/pack.c:87-149 | each successful call takes its output off the front of the archive still to come; a failure is that of the stream or of a read |
| PackTheorems.OutputIndependentOfBuffering | lib/edgehog_device/ztar/pack.c:87-149 | for all buffer sizes from 512 and all short or failing reads the concatenated output is a prefix of the stream of the files; a run that ends exhausted has put out exactly the archive; with reliable reads it ends exhausted if and only if the files really end and all can be packed, else with the code of the first that cannot |
| ZtarUnpack.Step | lib/edgehog_device/ztar/unpack.c:105-135 | one iteration of the parser keeps the state valid and consumes bytes or goes to a lower-ranked state, so empty files cannot loop |
| ZtarUnpack.Process | lib/edgehog_device/ztar/unpack.c:94-138 | processing any chunk ends and keeps the state valid |
| ZtarUnpack.UnpackStream.Init | lib/edgehog_device/ztar/unpack.c:63-83 | initialization zeroes the stream |
| ZtarUnpack.UnpackStream.ProcessHeader | lib/edgehog_device/ztar/unpack.c:217-258 | collects header bytes in the buffer and, once complete, acts as the step function says |
| ZtarUnpack.UnpackStream.ProcessData | lib/edgehog_device/ztar/unpack.c:260-311 | reports data and the end of a file as the step function says, in every error branch too |
| ZtarUnpack.UnpackStream.ProcessPadding | lib/edgehog_device/ztar/unpack.c:313-345 | consumes padding as the step function says and refuses non-zero bytes |
| ZtarUnpack.UnpackStream.ProcessTrailer | lib/edgehog_device/ztar/unpack.c:347-372 | consumes the trailer as the step function says and refuses non-zero bytes |
| ZtarUnpack.UnpackStream.ProcessChunk | lib/edgehog_device/ztar/unpack.c:94-138 | the offset loop over a chunk computes the pure call: code, new state and log of callbacks |
| ChunkIndependence.TwoChunksAreOne | lib/edgehog_device/ztar/unpack.c:94-138 | processing a then b ends as processing a+b: same state, log and success, and an error in one exactly when the same error in the other |
| ChunkIndependence.ChunksDoNotMatter | lib/edgehog_device/ztar/unpack.c:94-138 | any list of chunks, empty ones included, has the result of their concatenation |
| ChunkIndependence.ProcessExhausts | lib/edgehog_device/ztar/unpack.c:347-372 | the parser reports exhaustion exactly when the trailer is complete |
| ArchiveGrammar.HeaderBlockStep | lib/edgehog_device/ztar/unpack.c:217-258 | from a header boundary only a non-zero, valid header whose callback agrees starts a file; a refusal has the code of the header check, or that of the callback |
| ArchiveGrammar.SizelessFileIsRefused | lib/edgehog_device/ztar/unpack.c:260-269 | a file whose size field holds no number is refused as an invalid archive when more bytes come |
| ArchiveGrammar.ArchiveAccepted | lib/edgehog_device/ztar/unpack.c:94-138 | every archive of the grammar, followed by anything, is accepted with exactly its members logged |
| ArchiveGrammar.AcceptedIsArchive | lib/edgehog_device/ztar/unpack.c:94-138 | whatever is accepted is an archive of the grammar |
| TarDownload.Download.ProcessTarChunk | lib/edgehog_device/file_transfer/download.c:331-374 | initializes on the first chunk, parses, checks the end on the last one: new parser state, abort and message as the pure function says |
| TarDownload.RequestAcceptance | lib/edgehog_device/file_transfer/download.c:331-374 | a request is accepted exactly when its chunks leave the parser exhausted; the two error messages are told apart |
| TarDownload.AcceptanceIsTheGrammar | lib/edgehog_device/file_transfer/download.c:331-374 | a download is accepted if and only if the concatenated chunks are well-formed members that the callbacks agree to, then two zero blocks, then anything; the log is then exactly those members |
| TarDownload.BlockAlignment | lib/edgehog_device/ztar/unpack.c:217-372 | in every state the section offset equals the number of bytes consumed modulo 512 |
| CodecRoundTrip.ArchiveIsInTheGrammar | lib/edgehog_device/ztar/pack.c:87-326 | the packed archive of any packable files is in the grammar of the parser |
| CodecRoundTrip.GrammarIsUnambiguous | lib/edgehog_device/ztar/unpack.c:94-372 | no byte string is an archive of two different member lists |
| CodecRoundTrip.PackThenUnpack | lib/edgehog_device/ztar/unpack.c:94-463 | for every source, buffering and chunking: if packing runs to the end the download is accepted, and names, sizes, types and contents arrive in order if and only if no name loses its leading slash |
| CodecRoundTrip.ExhaustedAtTheLastByte | lib/edgehog_device/ztar/unpack.c:347-372 | every proper prefix of an archive is accepted so far, and exhaustion comes exactly with its last byte |
| SafePath.IsValidSafePath | lib/edgehog_device/file_transfer/filesystem_utils.c:104-149 | the skip-by-two scan accepts exactly the non-empty paths with the required leading character, without a component equal to "..", and without a trailing slash for files |
| SafePath.SafePathMeaning | lib/edgehog_device/file_transfer/filesystem_utils.c:104-149 | byte by byte: the path is not empty, begins with a slash exactly if required, has no two dots between slashes or ends, and a file does not end in a slash |
| TransferProgress.ProgressContext.UpdateProgress | lib/edgehog_device/file_transfer/utils.c:226-257 | new counters and submitted reports, wrap-around included |
| TransferProgress.ProgressIsBoundedAndNeverStale | lib/edgehog_device/file_transfer/utils.c:226-257 | reports never decrease, the last one is everything transferred, at most twenty precede it with a known total, one per 262144 bytes without |
| TransferProgress.ReportsAreNeverStale | lib/edgehog_device/file_transfer/utils.c:226-257 | after every update the percentage is less than five points above that of the last report, or without a total fewer than 262144 bytes have come since |
| TransferProgress.ReportsAreApart | lib/edgehog_device/file_transfer/utils.c:239-252 | a report that is not the last comes at least five points, or 262144 bytes, after the one before |
| FileTree.ExtendPath | lib/edgehog_device/file_transfer/filesystem_utils.c:406-423 | appends a slash if needed and the name exactly when the result fits 255 bytes; otherwise leaves the buffer |
| FileTree.CutPath | lib/edgehog_device/file_transfer/filesystem_utils.c:436-437 | a NUL cuts the shared buffer back to a prefix of its path |
| FileTree.Walker.constructor | lib/edgehog_device/file_transfer/filesystem_utils.c:261-272 | the buffer starts with the base path |
| FileTree.Walker.WalkRecursive | lib/edgehog_device/file_transfer/filesystem_utils.c:381-442 | the recursion over one shared buffer makes exactly the callbacks of the walk function, directories after their contents, and restores the path; it ends because every level is longer and must fit 256 bytes |
| FileTree.TooLongMeaning | lib/edgehog_device/file_transfer/filesystem_utils.c:400-412 | a walk reports a path of 256 bytes or more exactly for the entries of its own listing |
| FileTree.WalkOfConcat | lib/edgehog_device/file_transfer/filesystem_utils.c:394-438 | what a walk calls back for does not depend on what comes later in the listing, nor on paths that are too long further down |
| TarCursor.ReadContext.constructor | lib/edgehog_device/file_transfer/filesystem.c:366-384 | the cursor opens the source directory at depth one |
| TarCursor.ReadContext.AscendDirectory | lib/edgehog_device/file_transfer/filesystem.c:545-554 | closes the deepest directory and cuts the path back to its parent |
| TarCursor.ReadContext.BuildEntryPath | lib/edgehog_device/file_transfer/filesystem.c:556-579 | extends the path with an entry, or fails exactly when it does not fit |
| TarCursor.ReadContext.HandleDirEntry | lib/edgehog_device/file_transfer/filesystem.c:581-596 | enters a directory, or fails exactly at depth ten; depths, lengths and the buffer stay consistent |
| TarCursor.ReadContext.HandleFileEntry | lib/edgehog_device/file_transfer/filesystem.c:598-618 | opens the file under its path relative to the source, which always fits the name buffer, and cuts the path back |
| TarCursor.ReadContext.SearchStep | lib/edgehog_device/file_transfer/filesystem.c:437-475 | one iteration of the search does one step of the pure cursor and lowers the weight of what is left |
| TarCursor.ReadContext.GetNextEntry | lib/edgehog_device/file_transfer/filesystem.c:418-477 | the search loop over the explicit stack ends and computes the next entry, the end, or the failure of the pure cursor, keeping depth within 0..10, the recorded path lengths strictly increasing, and the shared buffer the NUL-terminated path of the deepest open directory |
| TarCursor.ReadContext.ReadChunk | lib/edgehog_device/file_transfer/filesystem.c:479-496 | reads at most a buffer from the open file, in order, and flags short reads |
| Traversal.NextEntryProduces | lib/edgehog_device/file_transfer/filesystem.c:418-477 | one call hands out exactly the first pending file, or fails exactly when the rest cannot be listed |
| Traversal.WalkListsFiles | lib/edgehog_device/file_transfer/filesystem_utils.c:381-442 | the file callbacks of the walk over a listable tree are the files of the tree in order |
| Traversal.CursorRefinesWalk | lib/edgehog_device/file_transfer/filesystem.c:418-477 | the explicit-stack cursor lists a directory completely if and only if all paths fit and no directory is too deep, and then hands out exactly the files the recursive walk visits, in its order and under its full paths |
| TreeLimits.CompleteExactlyWithinLimits | lib/edgehog_device/file_transfer/filesystem.c:418-596 | the cursor lists a tree completely exactly when every full path has fewer than 256 bytes and no directory lies more than nine levels below the source |
| Upload.CalculateTarDirectorySize | lib/edgehog_device/file_transfer/filesystem_utils.c:248-259 | the walk with the counting callback computes the announced size, in size_t arithmetic |
| Upload.CountsVolume | lib/edgehog_device/file_transfer/filesystem_utils.c:35-44 | counting along a walk adds up blocks, sizes and padding of the files it visits, modulo the width of size_t |
| Upload.AnnouncedIsArchiveLength | lib/edgehog_device/file_transfer/filesystem_utils.c:248-259 | the announced size is the length of the archive of the listed files, modulo the width of size_t |
| UploadSession.ReadPortion | lib/edgehog_device/file_transfer/upload.c:73-92 | a read at an offset fails, returns nothing, or returns a portion of the file from there within buffer and limit, as fs_read grants |
| UploadSession.CursorServes | lib/edgehog_device/file_transfer/upload.c:56-92 | the upload callbacks serve the packer exactly the files of the listing, under their relative names, reliably when fs_read never fails |
| UploadSession.TarReader.GetNextFile | lib/edgehog_device/file_transfer/upload.c:56-71 | on the explicit-stack cursor, the callback answers as the source made from the listing does, and leaves the file open at its start |
| UploadSession.TarReader.ReadData | lib/edgehog_device/file_transfer/upload.c:73-92 | on the open file, the callback answers as that source does at the position reached, and moves it by what it returned |
| UploadSession.PackerAsksInOrder | lib/edgehog_device/ztar/pack.c:155-293 | the packer asks for files in order and reads each at the offset it has reached, moved by exactly what each read returned |
| UploadSession.Session.ProcessTarUploadChunk | lib/edgehog_device/file_transfer/upload.c:369-400 | one payload callback is one packing call of 1024 bytes; exhaustion is remembered and flagged as the last chunk |
| UploadSession.Session.PutPayload | lib/edgehog_device/http.c:215-256 | the sending loop ends for all failing reads and sends; when it succeeds the files really end, all can be packed, and exactly their archive was sent; if nothing fails it succeeds exactly then |
| UploadSession.UploadDirectory | lib/edgehog_device/file_transfer/upload.c:142-218 | a successful upload has listed the directory completely and sent the archive of exactly the files the walk visits, and the announced size equals what was sent unless that exceeds size_t; if no read and no send fails, it succeeds if and only if the cursor can list the directory and every file can be packed |
| FileSystem.MakeDirectoriesMakes | lib/edgehog_device/file_transfer/filesystem_utils.c:274-314 | making a path keeps everything there, adds only directories on the way to it, and leaves the file system well formed even when it fails |
| FileSystem.MakeDirectoriesSucceeds | lib/edgehog_device/file_transfer/filesystem_utils.c:274-314 | making a path succeeds when no file is in the way |
| FileSystem.ResolveOfJoin | lib/edgehog_device/file_transfer/filesystem.c:223-228 | joining two paths with a slash joins what they denote |
| Extraction.MkdirRecursive | lib/edgehog_device/file_transfer/filesystem_utils.c:274-314 | for every path: too long fails, a file path without a slash does nothing, and otherwise the in-place loop that cuts the path at every slash makes the directories of the path, or of its directory part for a file, outermost first, stopping at the first failure |
| Extraction.SplitAtLastSlash | lib/edgehog_device/file_transfer/filesystem_utils.c:283-291 | the combined path denotes the destination followed by the name, and its directory part followed by its last component |
| TarExtraction.IsValidTarDestination | lib/edgehog_device/file_transfer/filesystem_utils.c:151-176 | a destination is valid exactly when it is a safe absolute path that fits and is an empty directory or can be made; extraction then starts from an empty directory |
| TarExtraction.IsDirEmpty | lib/edgehog_device/file_transfer/filesystem_utils.c:320-339 | a directory is empty when its listing has nothing but "." and ".." |
| TarExtraction.IsValidFileDestination | lib/edgehog_device/file_transfer/filesystem_utils.c:151-176 | a single-file destination is valid exactly when it is a safe absolute path that fits, nothing is there, and its directories are there or can be made |
| TarExtraction.WriteInit | lib/edgehog_device/file_transfer/filesystem.c:136-190 | a context comes back exactly when the destination is valid and a single file can be opened; it starts with an empty directory, or with the new file open |
| TarExtraction.WriteContext.IsValidRelativeFile | lib/edgehog_device/file_transfer/filesystem_utils.c:178-209 | refuses unsafe names before touching anything; otherwise makes the parent directories and accepts exactly new paths |
| TarExtraction.WriteContext.AppendNextEntry | lib/edgehog_device/file_transfer/filesystem.c:192-253 | new file system, open file and verdict are those of the opening function; whatever it does stays below the destination and within the reach of the delete walk |
| TarExtraction.WriteContext.WriteAppend | lib/edgehog_device/file_transfer/filesystem.c:255-279 | a write loop with short writes puts exactly the accepted prefix at the end of the open file, and succeeds exactly when all is taken |
| TarExtraction.WriteContext.Abort | lib/edgehog_device/file_transfer/filesystem.c:304-336 | at any point of a download the abort leaves nothing at or below the destination and all else as at the start; every unlink of the walk is of a file or an already empty directory; an aborted single file leaves the file system as it was |
| TarExtraction.TarSink.OnFileStart | lib/edgehog_device/file_transfer/download.c:81-106 | opens regular files only; the answer and the file system are those of the log so far |
| TarExtraction.TarSink.OnFileData | lib/edgehog_device/file_transfer/download.c:108-117 | appends the data; fails only when the file system refuses or no file is open |
| TarExtraction.TarSink.OnFileEnd | lib/edgehog_device/file_transfer/download.c:119-122 | always succeeds and changes nothing |
| TarExtraction.TarCallbacksAreAdditive | lib/edgehog_device/file_transfer/download.c:81-122 | the extraction callbacks answer and act the same however the data is cut |
| Containment.OpeningStaysContained | lib/edgehog_device/file_transfer/filesystem.c:192-253 | opening an entry, successful or not, changes nothing outside the destination and makes only paths that fit the walk |
| Containment.WritingStaysContained | lib/edgehog_device/file_transfer/filesystem.c:255-279 | writing changes nothing outside the destination |
| Containment.NameIsInBudget | lib/edgehog_device/file_transfer/filesystem.c:207-212 | everything on the way to an accepted name has a combined path below 256 bytes and clean components |
| DeleteWalk.DeletesListing | lib/edgehog_device/file_transfer/filesystem.c:110-115 | the delete walk over a listing removes exactly what is listed, and every unlink succeeds |
| DeleteWalk.WalkEmptiesDirectory | lib/edgehog_device/file_transfer/filesystem.c:304-325 | the delete walk empties the directory and touches nothing else |
| ExtractionResult.OpensOnlyNewFiles | lib/edgehog_device/file_transfer/filesystem.c:192-253 | an entry can be opened only under a good name that is not at, above or below an extracted file |
| ExtractionResult.ExtractsOneMore | lib/edgehog_device/file_transfer/filesystem.c:192-279 | a further good name can be opened, and with its data the file system holds one file more and everything it held |
| ExtractionResult.ExtractionIsExact | lib/edgehog_device/file_transfer/download.c:81-122 | extracting any members into an empty directory succeeds if and only if the names of the files, told by byte 156, are good, no file is, or lies inside, another, and no other member carries data before the first file; the result holds exactly those files, directories leading to them, and everything else unchanged |
| ExtractionResult.OtherMembersAreSkipped | lib/edgehog_device/file_transfer/download.c:91-95 | directories and other members without data change nothing: the files are extracted, with exactly their own data, as if alone |
| TreeNames.LeavesAreFiles | lib/edgehog_device/file_transfer/filesystem_utils.c:381-442 | the listed leaves are exactly the files reachable by names in the tree |
| TreeNames.LeavesApart | lib/edgehog_device/file_transfer/filesystem_utils.c:381-442 | in a tree without duplicate names no file is, or lies inside, another |
| TreeNames.RelativeNameIsSlashed | lib/edgehog_device/file_transfer/filesystem.c:598-618 | the archive name of a file is its names below the source, separated by single slashes |
| TreeNames.SlashedIsProper | lib/edgehog_device/file_transfer/filesystem_utils.c:104-149 | such a name is safe and denotes exactly those names |
| TreeNames.ListingIsLeaves | lib/edgehog_device/file_transfer/filesystem_utils.c:381-442 | the files below a directory are the leaves of its tree at their full paths |
| TreeRoundTrip.TreeIsExtractable | lib/edgehog_device/file_transfer/filesystem.c:192-253 | the names of a tree can be extracted exactly when the combined paths fit 255 bytes |
| TreeRoundTrip.TreeSurvives | lib/edgehog_device/file_transfer/download.c:81-122 | any tree the cursor lists and the packer packs, cut into any chunks and downloaded into an empty directory, is accepted if and only if all combined paths fit; the file system then has below the destination exactly the regular files of the tree by relative path and content, and is unchanged elsewhere |
| OtaSafety.RunKeeps | lib/edgehog_device/ota.c:202-696 | every run, with restarts anywhere, keeps the invariant over thread record, settings, boot loader, semaphore and history |
| OtaSafety.RecoveryPublishes | lib/edgehog_device/ota.c:226-262 | publishing by the recovery keeps the invariant: a success is earned and comes once |
| OtaSafety.WorkerEndsAttempt | lib/edgehog_device/ota.c:576-605 | an attempt goes on to deployment only when it was good: run bit set, all bytes of a non-empty image in flash |
| OtaSafety.WorkerDeletes | lib/edgehog_device/ota.c:498-504 | the worker drops the request only after its outcome was published |
| OtaSafety.UpdateKeeps | lib/edgehog_device/ota.c:337-406 | accepting or refusing an update keeps the invariant |
| OtaSafety.CancelKeeps | lib/edgehog_device/ota.c:652-696 | a cancel keeps the invariant |
| OtaTheorems.SuccessIsEarned | lib/edgehog_device/ota.c:226-262 | before Success for an update: its last attempt before Deploying ended with the HTTP request successful, the run bit set and bytes written equal to a non-zero image size, then Deploying was published, then state REBOOT saved, whatever restarts lie between |
| OtaTheorems.SuccessNeedsTheUpgrade | lib/edgehog_device/ota.c:455-476 | before Success for an update the upgrade was requested for it, or state REBOOT was saved for it with an upgrade already pending or the running image unconfirmed |
| OtaTheorems.NoSilentDrop | lib/edgehog_device/ota.c:498-504 | a stored request is deleted only after Success or Failure was published for it |
| OtaTheorems.StoredUntilReported | lib/edgehog_device/ota.c:549-554 | a request that was ever stored is still stored or has been reported |
| OtaTheorems.QuietWhenReady | lib/edgehog_device/ota.c:264-268 | whenever the recovery is done and no worker runs, no request is stored and the state is IDLE |
| OtaTheorems.UpdatesExcludeTransfers | lib/edgehog_device/ota.c:423-507 | semaphore count plus holders is one: an update and a transfer never overlap |
| OtaTheorems.RecoveryInOneGo | lib/edgehog_device/ota.c:202-269 | the recovery, run step by step, ends and does what its text says |
| OtaTheorems.RecoverySettles | lib/edgehog_device/ota.c:202-269 | an uninterrupted recovery publishes Success, and confirms the image, exactly when state REBOOT is stored, no swap is pending, and the unconfirmed image could be confirmed, else Failure, and leaves no request and IDLE |
| OtaTheorems.LateRestartReportsFailure | lib/edgehog_device/ota.c:241-262 | a restart between confirming the image and publishing Success makes the next uninterrupted recovery publish Failure |
| OtaOutcomes.LateRestartCostsSuccess | lib/edgehog_device/ota.c:250-262 | with Success about to be published, it is ever published, in any continuation, if and only if a recovery step comes before the first restart |
| OtaOutcomes.LateRestartCanHappen | lib/edgehog_device/ota.c:250-262 | a new device can come to that point, with a restart possible |
| OtaTheorems.EventLanguage | lib/edgehog_device/ota.c:408-574 | the events of one update are always Acknowledged, at most five attempts each ended by an Error except possibly the last, a beginning of Deploying, Deployed, Rebooting, then only Success and Failure, Success at most once |
| OtaTheorems.ReadableIsAStory | lib/edgehog_device/ota.c:408-574 | the event automaton accepts only sequences of that form |
| OtaRetries.FailureAfterFiveAttempts | lib/edgehog_device/ota.c:557-574 | in every reachable state in which the worker is about to publish Failure there have been five Errors if and only if the request was stored, Deploying was not published and no attempt found the run bit cleared |
| OtaRetries.ErrorsLeadToTheNextAttempt | lib/edgehog_device/ota.c:557-571 | an attempt that ends in an Error is followed by the next, and after the fifth by the Failure |
| OtaRetries.FiveErrorsBeforeFailure | lib/edgehog_device/ota.c:529-574 | in a run without restarts, a Failure for an update that was stored, not deployed and not found cancelled comes after exactly five Errors |
| OtaFailures.FailureEndsTheUpdate | lib/edgehog_device/ota.c:427-476 | when settings, flash, the storing of the request, the header or the upgrade request fail, nothing more is ever recorded for the update but its outcome and the deletion of its request; an unreadable header never leads to an upgrade request |
| OtaFailures.FailedWorkerLeaves | lib/edgehog_device/ota.c:478-507 | a worker on its way out is gone in at most six steps, with the semaphore free and nothing stored |
| OtaFailures.FailureLeavesStored | lib/edgehog_device/ota.c:478-504 | until the request is deleted, state REBOOT stays stored if Deploying was published, and IDLE is stored if not |
| OtaFailures.CancelIsAcceptedExactly | lib/edgehog_device/ota.c:652-696 | in every reachable state a cancel clears the run bit exactly if it is set, the settings work and a request is stored; else it is refused and nothing else changes |
| OtaFailures.CancelStopsTheDownload | lib/edgehog_device/ota.c:607-625 | after a cancel during a download no byte is written and nothing is recorded for the update but the end of the attempt, its outcome and the deletion of its request |
| OtaFailures.UpdateIsDecided | lib/edgehog_device/ota.c:337-406 | an update is refused while the run bit is set; else a worker begins with zeroed counters, unless it cannot be created |
| OtaFailures.FailedCreationBlocksUpdates | lib/edgehog_device/ota.c:382-406 | after a worker could not be created, every update and cancel is refused until the device restarts |
| OtaFailures.ReportedPercent | lib/edgehog_device/ota.c:636-646 | the percentage is a multiple of ten, at most the true one, and less than ten below it unless the product exceeds size_t |
| OtaFailures.ReportsAreRounded | lib/edgehog_device/ota.c:636-646 | in every run every published percentage is a multiple of ten |
| OtaFailures.DownloadReports | lib/edgehog_device/ota.c:607-650 | within one exchange the published percentages climb strictly, and the last one reported is that of all bytes written |
| OtaFailures.PercentIsKeptInAByte | lib/edgehog_device/ota.c:640-646 | the percentage is published when it differs from the one kept, which is cut to a byte, so above 255 it is published every time |
| OtaDevice.Device.EdgehogOtaInit | lib/edgehog_device/ota.c:202-269 | the initialization code computes the recovery of the protocol |
| OtaDevice.Device.EventUpdate | lib/edgehog_device/ota.c:337-406 | the update handler is the update step of the protocol |
| OtaDevice.Device.EventCancel | lib/edgehog_device/ota.c:652-696 | the cancel handler is the cancel step of the protocol |
| OtaDevice.Device.HttpDownloadPayloadCbk | lib/edgehog_device/ota.c:607-650 | refuses exactly when cancelled or when the write fails; updates sizes and publishes the rounded percentage only when it changes |
| OtaDevice.Device.HttpGet | lib/edgehog_device/ota.c:587-590 | payloads until one is refused; with the run bit set it succeeds exactly if the exchange does and every payload is written, and counts all their bytes |
| OtaDevice.Device.PerformOtaAttempt | lib/edgehog_device/ota.c:576-605 | ends cancelled exactly with the run bit clear; otherwise it is done exactly if the exchange succeeded, every payload was written and all bytes of a non-empty image are in flash |
| OtaDevice.Device.PerformOta | lib/edgehog_device/ota.c:529-574 | a run of the protocol with cancellations at any time: when it gives up, exactly five Errors were published if the request was stored and none if not; with everything favourable it is done |
| OtaDevice.Device.SelfDestruct | lib/edgehog_device/ota.c:497-507 | clears the run bit, drops the request, saves IDLE and gives the semaphore, in this order |
| OtaDevice.Device.OtaThreadEntryPoint | lib/edgehog_device/ota.c:408-508 | the worker, for all answers from outside and all cancellations, is a run of the protocol that ends waiting for the reboot, or gone with nothing stored; the former if everything succeeds and nobody cancels, the latter if no exchange is ever complete |
| OtaOutcomes.CancelIsFinalUnlessTooLate | lib/edgehog_device/ota.c:652-696 | in every reachable state that accepts a cancel: after it some continuation deploys the update if and only if the last attempt had already ended well or Deploying had been published |
| OtaOutcomes.CancelledIsNeverDeployed | lib/edgehog_device/ota.c:652-696 | an accepted cancel that is not too late is final: in every continuation, restarts included, the update is neither deployed nor reported as a success |
| OtaOutcomes.CancelCanBeTooLate | lib/edgehog_device/ota.c:450-456 | a new device can come to a state in which a cancel is accepted and Deploying is published by the next step all the same |
| OtaOutcomes.SuccessWithoutUpgrade | lib/edgehog_device/ota.c:454-476 | once state REBOOT is saved: Success can come without the upgrade ever being requested if and only if an upgrade was pending already or the running image is not confirmed |
| OtaOutcomes.UpgradeCanBeSkipped | lib/edgehog_device/ota.c:454-476 | a device whose image is not confirmed can come to that point |
| OtaOutcomes.RetryCountsAllAttempts | lib/edgehog_device/ota.c:542-604 | an attempt whose exchange succeeds is good if and only if the bytes in flash before it and those it wrote add up to the image size; so after some bytes have been written, an attempt that receives the whole image is reported as an Error |
| OtaOutcomes.SuccessIsPossible | lib/edgehog_device/ota.c:408-508 | for every image size and every k below five there is a run of a new device with k Errors, each followed by another attempt, and then the whole successful sequence, that leaves the new image confirmed and nothing stored |
| FtTheorems.StepKeeps | lib/edgehog_device/file_transfer/core.c:182-376 | every step of start, stop, event handler and thread keeps every message in exactly the place its history says |
| FtTheorems.StepKeepsOrder | lib/edgehog_device/file_transfer/core.c:277-329 | every step but a late put keeps first-in first-out order and leaves nothing behind |
| FtTheorems.TransfersExcludeUpdates | lib/edgehog_device/file_transfer/core.c:345-371 | semaphore count plus holders is one: a transfer and an update never overlap |
| FtTheorems.MessagesLiveByTheRules | lib/edgehog_device/file_transfer/core.c:331-376 | in every run a queued message is taken once, then answered once and destroyed once, or destroyed unanswered during a shutdown; refused messages are answered once exactly when they have an identifier, and destroyed once |
| FtTheorems.MessagesAreConserved | lib/edgehog_device/file_transfer/core.c:229-376 | without late puts messages leave the queue in the order they entered, and once the service is closed every message that arrived has been destroyed: after one answer if handled, unanswered if discarded, and if refused answered exactly when it has an identifier |
| FtTheorems.LatePutIsLost | lib/edgehog_device/file_transfer/core.c:296-308 | a message queued after the service was closed is never handled, answered or destroyed, whatever comes after |
| FtTheorems.DestroyedExactlyWhenTimely | lib/edgehog_device/file_transfer/core.c:229-376 | a run that ends with the service closed and no event being handled has destroyed every message that arrived if and only if no put came late |
| FtTheorems.LatePutCanHappen | lib/edgehog_device/file_transfer/core.c:277-309 | such a run exists: the handler tests the run bit, a stop completes, and then the message is queued |
| FtProgress.FirstMessageIsHandled | lib/edgehog_device/file_transfer/core.c:343-371 | in every reachable state with the thread about to look for a message and the semaphore free, its next seven steps answer and destroy the first message and free the semaphore again |
| FtProgress.QueueIsHandled | lib/edgehog_device/file_transfer/core.c:343-371 | a queue of n messages is answered in its order in 7n steps of the thread |
| FtProgress.MessageWaits | lib/edgehog_device/file_transfer/core.c:346-353 | while an update holds the semaphore, a message taken out waits, for any number of time-outs |
| FtProgress.WaitingMessageIsHandled | lib/edgehog_device/file_transfer/core.c:346-371 | once the update gives the semaphore, four steps answer and destroy the waiting message |
| FtProgress.ArrivalIsDecided | lib/edgehog_device/file_transfer/core.c:277-329 | an arriving message is queued last if it can be read, the service runs and fewer than ten wait; else it is answered if it has an identifier, destroyed, and the queue left alone |
| FtProgress.StartBegins | lib/edgehog_device/file_transfer/core.c:183-227 | from every closed state a start leaves the thread about to look at an empty queue |
| FtProgress.StopCompletes | lib/edgehog_device/file_transfer/core.c:229-265 | after every stop, at most five steps of the thread and two more of the stop than messages wait close the service with an empty queue |
| FtProgress.StopAnswersWhatIsHandled | lib/edgehog_device/file_transfer/core.c:343-371 | a stop lets the message being handled be answered and discards one that waits for the semaphore |

## Left out

- Sockets, DNS, TLS, URLs and the HTTP client; the upload driver is its loop over payload chunks, and a
  download is a list of response chunks with the last one flagged.
- LZ4, SHA-256 digests and stream pipes: thin layers over libraries that are not part of this model.
- Allocation failures, logging, time and sleeps. Opening and listing a directory succeed on an unchanged
  tree, whose listing is a fixed snapshot; source paths are shorter than 256 bytes.
- Partition permissions and free space (`is_valid_partition`), and `fs_stat` errors other than "not found".
  The root directory and the empty path denote the root of the model's file system, where Zephyr may
  report an error instead.
- TarExtraction.WriteContext.Abort: takes the directory listing at the time of the abort as given; that
  `readdir` reports what is there is an assumption.
- UploadSession.Session.ProcessTarUploadChunk: does not include the call that updates the progress
  counters; that call is modelled on its own in `TransferProgress`.
- TarDownload.Download.ProcessTarChunk: the same holds for its progress call; the parser calls its
  callbacks as functions of the log, which `TarSink` implements on the write context.
- TarExtraction.WriteContext.constructor: presumes that the file can be opened; `WriteInit`, which calls
  it, covers the failure.
- OtaDevice.Device.HttpDownloadPayloadCbk: a response whose announced size is zero, by which the code
  divides; the outcome of that division is up to the processor.
- Single-file uploads and downloads beyond creating, writing and aborting the file.
- The state the parser and packer are left in after an error is modelled, but nothing is claimed of
  calls made after one, since every caller aborts.
- Ota: settings reads, saves and deletes succeed once the settings are initialized; the recovery runs
  before the first event; an update is not accepted while an old worker is alive with its run bit
  cleared; request identifiers are not reused. MCUboot is reduced to a pending upgrade and a confirmed
  flag. The bytes of the image and its verification are not modelled, only their number.
- Ota: the application event that shortens the wait before the reboot.
- FtService: stops that time out and kill the thread, starts that fail, and starts or stops that overlap
  another stop. The transfer itself is one step that answers; its contents are the modules above.
- Device telemetry, LED, WiFi, battery, storage and system information, and generated interfaces: device
  input and output or configuration tables.
