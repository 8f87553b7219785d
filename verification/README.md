# BlockOps verification model

BlockOps controls one Minecraft server: it swaps and archives worlds, keeps an audit log, follows
the server's console and stores accounts. This project models the parts of it whose correctness
spans several steps or several calls, and proves what they promise.

Code that updates objects is a class whose methods are proved against functions on values; what the
system promises is then proved about those functions for all inputs, all runs or all schedules.

- **World replacement** (`Paths`, `Trees`, `WorldSwap`). `installStagedWorlds` with every stat,
  rename, remove and Docker call free to fail. A failure is a choice per step; the proofs show that
  no run performs a step twice, so a choice per step covers every run.
- **Archives** (`Archive`, `Zip`, `ZipLevel`, `Uploads`, `Operations`, `Snapshots`). Tar and ZIP
  archives as lists of entries, extraction with its budgets in 64-bit integers, backup followed by
  restore, zipping a world followed by uploading it, any interleaving of the operations that share
  the mutex, and what the archives made under it hold.
- **Audit log** (`Timestamps`, `Audit`). Times as the strings that are stored and compared, keyset
  paging while others append, and the capped export.
- **Console** (`Tail`, `Ansi`, `Hub`, `ConsoleStream`, `ConsoleLines`). From log bytes through the
  ring and its lossy subscribers to the reconnecting browser socket and the merged view.
- **Store and protocols** (`Migrations`, `Accounts`, `Limiter`, `Rcon`, `Forwarded`).

Calls outside the system are parameters: fault plans, clock readings, fresh identifiers and tokens,
the address library, and what each poll of the log file finds.

## Where the code and its promises differ

- `docs/ARCHITECTURE.md:38` promises that an installation or start failure restores the prior
  directories, and it does (`WorldSwap.FailureRestoresExactly`). But the rollback directory itself is
  made inside the data directory and removed on success only, so every later error return, a failed
  stop included, leaves it there (`WorldSwap.FailureChangesTheListing` is exact,
  `WorldSwap.FailedStopLeavesRollbackDirectory` an input).
- A failure while the old worlds are being set aside (`backend/internal/operations/worlds.go:39` and
  `:44`) makes `rollbackWorlds` remove every configured world, also those not moved yet.
  `WorldSwap.StagingFailureOutcome` says exactly when that is harmless,
  `WorldSwap.StagingFailureLosesAWorld` gives an input.
- `worldZipPrefix` cleans the name of the level data, dropping a leading "./", and the extraction loop
  compares the raw name. `ZipLevel.LevelIsTaken` says exactly when the two agree; otherwise the upload
  is refused (`ZipLevel.UnmatchedLevelIsRefused`, `ZipLevel.DotSlashArchiveIsRefused`).
- A read error in the middle of a log line loses the part already read
  (`Tail.FailedReadLosesAPartialLine` says exactly when, `Tail.BrokenReadLosesTheLine` shows a log).
- Directory entries of a ZIP count towards the size limit but write nothing
  (`Zip.ExtractedWorldIsTheArchive`, `ZipLevel.DirectorySizesCount`).
- `formatTime` strings do not sort as instants within a second (`Timestamps.TrimmedTimeOrder`).
  Sessions therefore err by less than a second (`Accounts.ExpiryIsExact`,
  `Accounts.ExpiredSessionIsOpen`).
- Paging is complete because audit times are stored in full width. A row with a trimmed time makes its
  cursor pass over later rows (`Audit.CursorContinues`, `Audit.TrimmedCursorSkips`,
  `Audit.TrimmedTieIsNeverListed`). Migration 1 repairs exact-second rows only
  (`Migrations.NormaliseIsFullWidth`).

## Model

| member | source | states |
|---|---|---|
| `WorldSwap.Host.InstallStagedWorlds` | backend/internal/operations/worlds.go:13-76 | For any distinct names and any failing steps: the outcome, everything in the data directory including the rollback directory the code makes there, and whether the container runs are those of a closed form; every kept world is intact in data or rollback after each step and at an error return; on success all old worlds are intact until the container has started on the replacement |
| `WorldSwap.Host.SwapStopped` | backend/internal/operations/worlds.go:36-75 | The same from the stopped container on, with the staging failure among the outcomes and the exact contents of the rollback directory at an error return |
| `WorldSwap.Host.Prepare` | backend/internal/operations/worlds.go:14-26 | The rollback directory, then the stop: which of them failed, and no world touched by either |
| `WorldSwap.Host.StageAllAside` | backend/internal/operations/worlds.go:36-49 | The loop stops at the first name whose stat or rename fails; names before it are in the rollback directory only, the rest are untouched; no tree is lost on the way |
| `WorldSwap.Host.PutAllIn` | backend/internal/operations/worlds.go:59-69 | The loop stops at the first name whose stat or rename fails; names before it hold exactly the staged tree or nothing |
| `WorldSwap.Host.InstallOrRecover` | backend/internal/operations/worlds.go:50-75 | Install, start, and recover unless both worked: outcome, final trees, no loss in between |
| `WorldSwap.Host.StartOrRecover` | backend/internal/operations/worlds.go:70-75 | A failed start recovers and attempts a start; a successful one removes the rollback directory only afterwards |
| `WorldSwap.Host.RemoveRollbackDirectory` | backend/internal/operations/worlds.go:18-23 | The deferred removal: the container already runs on the replacement, and only the rollback directory changes |
| `WorldSwap.Host.Recover` | backend/internal/operations/worlds.go:51-58 | The deferred recovery: every name ends as the closed form says, nothing that was set aside is lost even if recovery steps fail, and a start is attempted |
| `WorldSwap.Host.RecoverAside` | backend/internal/operations/worlds.go:50-58 | The recovery of a run that had set all old worlds aside: the final trees, a start attempt, and exactly the worlds not put back left in the rollback directory |
| `WorldSwap.Host.RecoverStaging` | backend/internal/operations/worlds.go:39-48 | The recovery of a run that failed while setting the old worlds aside: the final trees, a start attempt, and exactly what stays in the rollback directory |
| `WorldSwap.Host.RollbackWorlds` | backend/internal/operations/worlds.go:27-35 | Each name is removed and put back if set aside. Its steps must be new to the run, and every caller proves that: no path runs it twice |
| `WorldSwap.Host.RecoverWorld` | backend/internal/operations/worlds.go:28-33 | One name: whatever fails, a tree that was set aside is back in place or still set aside |
| `WorldSwap.Host.RestoreWorld` | backend/internal/operations/worlds.go:30-33 | What was set aside is put back whole, or stays set aside |
| `WorldSwap.Host.RemoveWorld` | backend/internal/operations/worlds.go:29 | Removing touches one name; a failure leaves any remainder of its tree |
| `WorldSwap.Host.RenameBack` | backend/internal/operations/worlds.go:31-33 | The renamed tree is in place, or nothing changed |
| `WorldSwap.Host.StageWorldAside` | backend/internal/operations/worlds.go:37-48 | An existing world moves whole into the rollback directory, or nothing changes and the loop stops |
| `WorldSwap.Host.PutWorldIn` | backend/internal/operations/worlds.go:60-68 | A staged world moves whole into place, an absent one is passed over, or nothing changes and the loop stops |
| `WorldSwap.FirstStageBlocked` | backend/internal/operations/worlds.go:36-49 | The first name whose staging aside fails; none before it does |
| `WorldSwap.FirstInstallBlocked` | backend/internal/operations/worlds.go:59-69 | The first name whose installation fails; none before it does |
| `WorldSwap.SuccessInstallsExactly` | backend/internal/operations/worlds.go:59-75 | All: success leaves exactly the staged worlds under the configured names (absent ones absent), everything else alone, and no rollback directory unless removing it failed |
| `WorldSwap.FailureRestoresExactly` | docs/ARCHITECTURE.md:38 | Nothing: after an installation or start failure a working recovery leaves everything as it began, beside an empty rollback directory |
| `WorldSwap.FailureLeavesRollbackDirectory` | backend/internal/operations/worlds.go:14-23 | Every error return after its creation leaves the rollback directory; it holds exactly the worlds set aside and not put back, whole, so it is empty if and only if none stayed behind |
| `WorldSwap.FailureChangesTheListing` | backend/internal/operations/worlds.go:14-23 | A failed run leaves the whole data directory as it began if and only if the rollback directory could not be created |
| `WorldSwap.FailedStopLeavesRollbackDirectory` | backend/internal/operations/worlds.go:24-26 | An input that shows it: a failed stop |
| `WorldSwap.StagingFailureOutcome` | backend/internal/operations/worlds.go:36-49 | After a staging failure a working recovery restores everything but the rollback directory if and only if none of the worlds not yet moved existed; exactly those are gone |
| `WorldSwap.StagingFailureLosesAWorld` | backend/internal/operations/worlds.go:39-42 | An input that shows it: one world whose rename aside fails is removed |
| `WorldSwap.RollbackIsNotIdempotent` | backend/internal/operations/worlds.go:27-35 | A second pass would remove what the first restored |
| `WorldSwap.WithoutFaultsInstalled` | backend/internal/operations/worlds.go:13-76 | When nothing fails the replacement is installed |
| `WorldSwap.OutcomeIsExact` | backend/internal/operations/worlds.go:13-76 | Every outcome with the failing steps that lead to it, and no others: the directory, the stop, a stat or rename of an old world, of a staged one, or the start |
| `WorldSwap.WorldNamesDistinct` | backend/internal/operations/worlds.go:97-99 | The three world names of a server are distinct for every configured name |
| `Paths.ContainedIsBelow` | backend/internal/operations/worlds.go:117-123 | `ensureContained` accepts exactly the clean targets at or below the root |
| `Paths.SafeRelativeIsContained` | backend/internal/operations/worlds.go:109-115 | A name that `safeRelative` accepts joins to the root followed by its cleaned parts, so the containment check after it never fires |
| `Paths.SafeRelativeIsBelow` | backend/internal/operations/worlds.go:109-115 | The names that `safeRelative` accepts are exactly the relative ones that, part by part, never climb above their start and end below it |
| `Paths.ParentCancels` | backend/internal/operations/worlds.go:109-115 | What cleaning does, anywhere in a path: a name and the ".." after it cancel, "." and empty parts count for nothing |
| `Paths.NothingAboveRoot` | backend/internal/operations/worlds.go:109-123 | A ".." at the root counts for nothing, and a relative path keeps those it begins with |
| `Paths.JoinedPathIsSafe` | backend/internal/operations/tar.go:46-53 | The slash form of any path of directory names is accepted and cleans and splits back to that path |
| `Trees.RebuildsWalk` | backend/internal/operations/tar.go:29-78 | Placing the walked entries of some children, in walk order, adds exactly those subtrees, with no collision |
| `Trees.BuildHoldsItems` | backend/internal/operations/tar.go:129-156 | A built tree holds exactly the files it began with and those of its entries |
| `Trees.BuildFilesDistinct` | backend/internal/operations/tar.go:138-141 | Exclusive creation: a successful build never meets a file path twice |
| `Trees.PlaceChangesOneFile` | backend/internal/operations/tar.go:138-141 | Placing an entry creates at most one file, never replaces one, and leaves every other file alone |
| `Trees.SortedNames` | backend/internal/operations/tar.go:29 | The listing order of a directory: all names, each once, in byte order |
| `Trees.WalkParentsFirst` | backend/internal/operations/tar.go:29-78 | In a walk every directory precedes what it holds |
| `Archive.ArchiveWriter.WriteWorldArchive` | backend/internal/operations/tar.go:17-93 | Success means every configured world is absent or a tree of files and directories, at least one exists, and the entries are the walk of the existing ones; without I/O failures such worlds are always archived |
| `Archive.ArchiveWriter.Visit` | backend/internal/operations/tar.go:29-78 | One node appends its header and then its descendants, relative to the data directory; only supported nodes succeed; the escape check never fires |
| `Archive.ArchiveWriter.VisitChildren` | backend/internal/operations/tar.go:29-78 | The children in listing order |
| `Archive.ArchiveWriter.ExistingWorlds` | backend/internal/operations/worlds.go:78-95 | The configured worlds that exist, in configuration order, all of them directories |
| `Archive.ExtractBackup` | backend/internal/operations/tar.go:95-163 | Unless interrupted, the outcome is the fold of the per-entry checks over all entries, with the total kept in 64 bits |
| `Archive.ExtractEntry` | backend/internal/operations/tar.go:121-156 | An accepted entry adds its declared size, and the total never passes the restore limit |
| `Archive.ExtractionIsSound` | backend/internal/operations/tar.go:107-161 | For every archive: success builds exactly the entries at their cleaned paths, under allowed raw prefixes; no entry is of an unsupported kind, has a negative size or a short body, and the declared sizes together are within 107374182400 bytes |
| `Archive.ExtractedFilesAreTheArchive` | backend/internal/operations/tar.go:112-161 | A file is in the extracted tree if and only if the archive records it there, no path is recorded twice, and the bytes stay within 100 GiB |
| `Archive.ArchiveThenExtract` | backend/internal/operations/tar.go:17-163 | Extracting what was archived gives back exactly the existing configured worlds |
| `Archive.ArchiveRecordsFiles` | backend/internal/operations/tar.go:29-78 | The archive has an entry with these bytes under a path if and only if one of the configured worlds has that file |
| `Archive.ArchiveParentsFirst` | backend/internal/operations/tar.go:29-78 | Parents precede children in every archive |
| `Operations.Service.WithConsistentWorld` | backend/internal/operations/archives.go:157-174 | On every path the acts form a critical section: archive only after a stopped inspection or this operation's own save-off and flush, and one save-on attempt after each successful save-off; success exactly when the archive was made quietly |
| `Operations.Service.ArchiveWorlds` | backend/internal/operations/archives.go:17-89 | Lock, the consistent archive, unlock; success exactly when every step succeeded |
| `Operations.Service.SwapWorlds` | backend/internal/operations/archives.go:119-155 | Lock, the swap if everything before it succeeded, unlock |
| `Operations.Service.DeleteBackup` | backend/internal/operations/archives.go:106-117 | Holds the mutex around nothing but catalogue work; succeeds exactly when its steps do |
| `Operations.ExecutionIsSerial` | docs/ARCHITECTURE.md:29 | Every schedule of any threads performs whole critical sections one after the other, then the started part of the holder's |
| `Operations.SerialTraces` | backend/internal/operations/archives.go:157-174 | In any such trace no work overlaps another thread's operation and every archive starts quietly |
| `Operations.InterleavingsAreSafe` | docs/ARCHITECTURE.md:29-37 | Over any interleaving: no archive or swap overlaps another thread's acts, archives start only on a quiet server, and every completed operation restored saves |
| `Snapshots.ArchivesAreSnapshots` | docs/ARCHITECTURE.md:29-37 | Over any interleaving, whatever the operations do to the data directory and in whatever order an archive reads it: every archive is that of the directory left by the operations before it, each performed whole, in mutex order; and so is the directory when nobody holds the mutex |
| `Snapshots.SerialIsUninterrupted` | backend/internal/operations/archives.go:17-155 | In every such trace the beginning and the end of a piece of work are adjacent |
| `Snapshots.AlwaysConsistent` | backend/internal/operations/archives.go:17-155 | Between two acts the directory is as the whole operations left it, unless a replacement is under way |
| `Operations.InstallExtracted` | backend/internal/operations/archives.go:127-137 | The common end of restore and upload: the error and the whole resulting directory, both working directories included, are the closed forms |
| `Operations.RestoreBackup` | backend/internal/operations/archives.go:119-138 | For every backup of worlds, whatever happened since: without an error the main world, the nether and the end are what the backup recorded and all else is as now; without failing steps there is no error. A backup without the level data of the main world is refused and changes nothing. Otherwise the closed-form end, an interruption being one more error |
| `Operations.ReplaceWorldZip` | backend/internal/operations/archives.go:140-155 | For every world of ordinary files within four times the upload limit, zipped with or without a directory of its own: without an error the main world is exactly that tree, the other two are absent and all else is as now; without failing steps there is no error. For any other upload the closed-form end |
| `Operations.ReplacingIsAllOrNothing` | docs/ARCHITECTURE.md:38 | Success: the worlds are the extracted ones and the rest is as before; any error but a staging failure, with a working recovery: all is as before but the working directories, for which it says exactly which is left and what it holds |
| `Operations.BackupThenRestore` | backend/internal/operations/archives.go:17-138 | Backup, any changes, any restore that returns without an error: every configured world is again what it was, absent ones absent, the rest as it is now; no extraction check fails, and without failing steps the restore succeeds |
| `Uploads.UploadedWorldIsExtracted` | backend/internal/operations/zip.go:13-115 | The same for the extraction: the archive of such a world, in its own order and with sizes declared, is extracted to exactly that world |
| `Zip.ExtractionHoldsEveryFile` | backend/internal/operations/zip.go:28-94 | After a successful extraction: what lies outside the world's directory is resource forks only, and every regular file inside it is in the world at its cleaned path with its whole content of the declared size |
| `Zip.EveryFileIsFromTheArchive` | backend/internal/operations/zip.go:28-94 | And nothing else: every file of the world is the content of a regular entry inside the world's directory, at its cleaned path, that is no resource fork |
| `Zip.WorldZipPrefix` | backend/internal/operations/zip.go:96-115 | All names acceptable and exactly one level.dat, whose cleaned directory is the prefix; otherwise the error |
| `Zip.ExtractWorldZip` | backend/internal/operations/zip.go:13-94 | Unless interrupted, the fold of the per-entry checks; every 64-bit value on the way is in range for every permitted upload limit |
| `Zip.ExtractOne` | backend/internal/operations/zip.go:50-92 | The size check, the containment check, the write and the size comparison of one entry in 64-bit arithmetic |
| `Zip.ExtractionIsSound` | backend/internal/operations/zip.go:28-94 | Success builds exactly the accepted entries and the running total is what they declare |
| `Zip.ExtractedWorldIsTheArchive` | backend/internal/operations/zip.go:28-94 | The world holds exactly the accepted files, each once; the total stays within four times the limit; the bytes written equal the total if and only if no accepted directory declares a size |
| `Zip.TakenIsBelowPrefix` | backend/internal/operations/zip.go:34-46 | An accepted entry's name is the level directory's prefix and its name inside the world, which cleans to a valid path |
| `ZipLevel.LevelIsAtTheRoot` | backend/internal/operations/zip.go:34-44 | An accepted level entry is re-rooted to level.dat at the top of the world, however its name was written |
| `ZipLevel.LevelIsNotSkipped` | backend/internal/operations/zip.go:34-41 | A level entry without a __MACOSX part is never passed over |
| `ZipLevel.UploadIsRecognised` | backend/internal/operations/worlds.go:101-107 | After a successful extraction a level entry that was not passed over is at the top of the world with its content, so the world is recognised |
| `ZipLevel.DotSlashIsRefused` | backend/internal/operations/zip.go:98-114 | Every level entry named "./..." in a directory is such an entry |
| `ZipLevel.LevelIsTaken` | backend/internal/operations/zip.go:34-49 | What becomes of every level entry: passed over exactly as a resource fork or the world directory itself, taken if and only if otherwise its raw name starts with the prefix derived from its cleaned name and goes on with a safe path, and else refused |
| `ZipLevel.UnmatchedLevelIsRefused` | backend/internal/operations/zip.go:28-49 | An upload whose level entry is neither passed over nor matched is always refused |
| `ZipLevel.DotSlashArchiveIsRefused` | backend/internal/operations/zip.go:28-49 | An archive that shows it: just "./<directory>/level.dat", whose prefix is found and whose extraction fails |
| `ZipLevel.DirectorySizesCount` | backend/internal/operations/zip.go:50-65 | An archive whose extraction succeeds with fewer bytes written than counted: level data and a directory that declares a size |
| `Audit.RowOf` | backend/internal/store/audit.go:11-39 | Each blank field gets exactly its default, each given one is stored as it is, and the stored time is full width and reads back |
| `Audit.AuditStore.WriteAudit` | backend/internal/store/audit.go:11-39 | Appends one row, or nothing when the identifier is taken; times stay in full width |
| `Audit.AuditStore.Taken` | backend/internal/store/audit.go:34-37 | The primary-key check of the insert |
| `Audit.AuditStore.ListAudit` | backend/internal/store/audit.go:41-99 | The page holds exactly the newest rows of the log that are older than the cursor, of the given server, of the given outcome, and that contain the search text in one of five columns ignoring ASCII case, newest first and as many as fit; its cursor names the last one exactly when more remain |
| `Audit.MatchesMeansWanted` | backend/internal/store/audit.go:42-61 | A row matches exactly when it is of the server, has the outcome, and at some offset of one of five columns agrees letter by letter with what is searched for, ignoring ASCII case, as far as each is asked for |
| `Audit.AuditStore.Export` | backend/internal/httpapi/audit.go:71-120 | Whatever others append between pages: what is written, and whether the export completed, are those of the paging function |
| `Audit.StaticExportIsTheListing` | backend/internal/httpapi/audit.go:80-119 | With no appends a completed export is exactly the first rows of the listing up to the cap, one that cannot read a page a prefix of them |
| `Audit.ExportWhileGrowing` | backend/internal/httpapi/audit.go:80-119 | While others append: within the cap, strictly descending, matching, from the log; and unless it met the cap or a failure, every matching row of the start |
| `Audit.ExportLimit` | backend/internal/httpapi/audit.go:80-112 | Each page size asked for is at least one and never passes the cap |
| `Audit.SelectedDescending` | backend/internal/store/audit.go:72-74 | The listing is strictly descending in time, then identifier |
| `Audit.CursorContinues` | backend/internal/store/audit.go:62-66 | The cursor of a row selects exactly the rows listed after it if and only if the row's time is stored in full width |
| `Audit.SelectedPosition` | backend/internal/store/audit.go:62-66 | Listing from the cursor of any row is the rest of the listing |
| `Audit.NextPage` | backend/internal/store/audit.go:92-97 | The page after a cursor continues where the last one ended |
| `Audit.TraversalIsComplete` | backend/internal/store/audit.go:41-99 | For every filter and page sizes of at least one, with anything appended between pages: the rows collected are strictly descending, match, were in the log, and at the end include every matching row of the start |
| `Audit.StaticTraversalIsTheListing` | backend/internal/store/audit.go:41-99 | With no appends the pages together are the filtered sorted log |
| `Audit.StaticTraversalEnds` | backend/internal/store/audit.go:92-97 | With no appends the end is reached |
| `Audit.TrimmedCursorSkips` | backend/internal/store/audit.go:62-66 | For every row stored with a trimmed time, exactly which later rows its cursor passes over; it never goes back |
| `Audit.ContinuationLacksTheSkipped` | backend/internal/store/audit.go:62-66 | The page after that cursor lacks exactly the skipped rows |
| `Audit.TrimmedTieIsNeverListed` | backend/internal/store/audit.go:41-99 | A log that shows it: two rows of one exact second, paged one at a time, whose traversal ends without the second |
| `Timestamps.AuditTimesSortAsInstants` | backend/internal/store/store.go:189-191 | Full-width times sort, and are equal, exactly as the instants (section 5.1 of RFC 3339) |
| `Timestamps.TrimmedTimeOrder` | backend/internal/store/store.go:187 | Trimmed times of different seconds sort as instants; within a second the earlier sorts first if and only if its fraction is not a prefix of the later one's |
| `Timestamps.TrimmedTimesErrBelowASecond` | backend/internal/store/store.go:187 | String comparison misplaces a time by strictly less than a second |
| `Timestamps.TrimmedTimesDoErr` | backend/internal/store/store.go:187 | Two times that sort the wrong way round |
| `Timestamps.ParseUndoesFormat` | backend/internal/store/store.go:187-196 | Both written forms read back as the time written, for every valid time |
| `Timestamps.AuditTimeIsWritten` | backend/internal/store/store.go:189-191 | An audit time character by character: every decimal digit of every field, the separators, nine fraction digits, thirty characters |
| `Timestamps.TrimmedTimeIsWritten` | backend/internal/store/store.go:187 | The other form is the same without the trailing zeros of the fraction, and without the point if nothing is left of it |
| `Timestamps.WholeOrder` | backend/internal/store/store.go:187-191 | Whatever follows the seconds, written times are decided by the whole second first, over every calendar date |
| `Timestamps.DigitsOrder` | backend/internal/store/store.go:189-191 | Fixed-width decimals sort as their numbers |
| `Timestamps.TrimmedSortsAfterFull` | backend/internal/store/store.go:187-191 | A trimmed time sorts after the full-width form of the same instant |
| `Timestamps.UntrimmedIsFull` | backend/internal/store/store.go:187-191 | The two forms agree on a time that needs all nine digits |
| `Tail.TailingIsSplitting` | backend/internal/console/hub.go:101-136 | For any appending and any polling: what is published is exactly the complete lines from the start, once each and in order, and the offset is just after the last newline consumed |
| `Tail.TailingFromTheStart` | backend/internal/console/hub.go:107-118 | The same from the first poll on, which begins at the start or 262144 bytes before the end |
| `Tail.LinesOfGrowth` | backend/internal/console/hub.go:124-135 | Continuing at the unfinished line splits as reading at once would |
| `Tail.LineLengthFinds` | backend/internal/console/hub.go:125 | A line ends with the first newline |
| `Tail.TrimRightCuts` | backend/internal/console/hub.go:134 | All line breaks at the end of a line are cut off, and nothing else |
| `Tail.ShrunkFileRestarts` | backend/internal/console/hub.go:115-117 | A file shorter than the offset is read again from its beginning |
| `Tail.TruncatedLogIsReadAfresh` | backend/internal/console/hub.go:101-136 | A log truncated any number of times, growing in between: each stretch is published as the complete lines it last had, from its beginning |
| `Tail.FailedReadLosesAPartialLine` | backend/internal/console/hub.go:126-132 | After a read that breaks off, the next poll publishes exactly what is missing if and only if it broke off between lines or no line has been completed since |
| `Tail.BrokenReadLosesTheLine` | backend/internal/console/hub.go:126-132 | A log that shows it: one line whose first read breaks off in the middle |
| `Ansi.StripAnsi` | backend/internal/console/hub.go:171-193 | The index loop computes the recursive stripping, also for sequences that never end |
| `Ansi.FindFinal` | backend/internal/console/hub.go:181-190 | The inner loop stops at the final byte of a sequence, or at the end |
| `Ansi.ControlSequenceIsStripped` | backend/internal/console/hub.go:171-193 | A control sequence (section 5.4 of ECMA-48) disappears and the text around it stays |
| `Ansi.EveryBeginning` | backend/internal/console/hub.go:171-193 | What stripping does with each byte a line can begin with, written out: tabs and bytes from 32 on stay, other control bytes and escapes go, and a sequence goes up to its first byte from 64 to 126 or to the end |
| `Ansi.StoredTextIsClean` | backend/internal/console/hub.go:138-145 | Stored text is visible, bounded and a fixed point of stripping |
| `Ansi.VisibleTextIsStored` | backend/internal/console/hub.go:138-145 | Visible text of permitted length is stored unchanged |
| `Ansi.LongTextIsCut` | backend/internal/console/hub.go:138-142 | Longer visible text is its first 8192 bytes and an ellipsis |
| `Hub.ConsoleHub.Publish` | backend/internal/console/hub.go:138-160 | Numbers and keeps one clean line; the ring holds exactly the last min(n, capacity) lines; every open subscriber has then been offered exactly what was published since it subscribed, and loses the line only when its buffer is full |
| `Hub.ConsoleHub.PublishLine` | backend/internal/console/hub.go:143-160 | The part under the lock: kept, then offered to every open subscriber |
| `Hub.ConsoleHub.CleanText` | backend/internal/console/hub.go:138-142 | The stored text of a raw line, a fixed point of stripping |
| `Hub.ConsoleHub.Announce` | backend/internal/console/hub.go:153-159 | After the broadcast of the line just kept, every open subscriber has been offered all that was published since it subscribed |
| `Hub.ConsoleHub.Keep` | backend/internal/console/hub.go:146-152 | The in-place ring update keeps exactly the latest lines |
| `Hub.ConsoleHub.Push` | backend/internal/console/hub.go:147-152 | Shift and overwrite when full, append otherwise |
| `Hub.ConsoleHub.Subscribe` | backend/internal/console/hub.go:67-75 | A new open channel with nothing buffered, beside the existing ones |
| `Hub.ConsoleHub.Broadcast` | backend/internal/console/hub.go:153-159 | Every open subscriber gets the line or drops it; none is sent to after its close |
| `Hub.ConsoleHub.ReadAvailable` | backend/internal/console/hub.go:101-136 | Publishes the stored text of exactly the lines `Tail.Poll` yields and returns its offset; a subscriber with room for them gets them all |
| `Hub.ConsoleHub.Run` | backend/internal/console/hub.go:38-53 | Poll after poll, then every subscriber closed. For any log of visible lines with either line ending, read however it grew from at most 256 KiB: what was published is exactly those lines, each up to 8192 bytes |
| `Hub.GrownLogShows` | backend/internal/console/hub.go:101-145 | The same about the polling function, from the log bytes to the stored texts |
| `Hub.ConsoleHub.Drain` | backend/internal/console/hub.go:124-135 | The reading loop of one poll, with both ways of ending, for the log and for the subscribers |
| `Hub.ConsoleHub.History` | backend/internal/console/hub.go:55-65 | A suffix of everything published, as long as asked for or as held |
| `Hub.ConsoleHub.Cancel` | backend/internal/console/hub.go:76-84 | Removes and closes a subscription, once; what is buffered stays |
| `Hub.ConsoleHub.CloseSubscribers` | backend/internal/console/hub.go:162-169 | Closes every remaining channel, once each |
| `Hub.SubscribersFollow` | backend/internal/console/hub.go:67-85 | What a subscriber received and has buffered is an in-order part of what was published since it subscribed, up to now or to its close, and all of it unless its buffer was full when a line came |
| `Hub.TakeLine` | backend/internal/console/hub.go:67-75 | A reader takes the oldest buffered line and the hub keeps its invariant |
| `Hub.Channel.Offer` | backend/internal/console/hub.go:153-159 | What was received plus what is buffered stays a subsequence of what was offered, all of it while nothing was dropped |
| `Hub.Channel.Close` | backend/internal/console/hub.go:76-84 | Only an open channel is closed |
| `Hub.Channel.Receive` | backend/internal/console/hub.go:67-75 | Takes the oldest buffered line |
| `Hub.SubsequenceGrows` | backend/internal/console/hub.go:153-159 | Leaving a line out keeps the order |
| `ConsoleStream.StepIsGood` | frontend/src/features/console/console-stream.ts:28-83 | Every event keeps: exactly one of socket and pending timer before cleanup and neither after; "connecting" first and once; silence after "disconnected"; each delay the right one |
| `ConsoleStream.EveryRunIsGood` | frontend/src/features/console/console-stream.ts:14-83 | The same for every run, with stale events in any order |
| `ConsoleStream.NothingAfterCleanup` | frontend/src/features/console/console-stream.ts:66-82 | After cleanup no event delivers a line or another state, and nothing is pending |
| `ConsoleStream.EveryLineIsDelivered` | frontend/src/features/console/console-stream.ts:34-48 | The lines delivered are exactly those of the well-formed messages on the live socket of their time, once each and in order, and "connected" is reported exactly when a live socket opens, for any events |
| `ConsoleStream.PhaseIsRun` | frontend/src/features/console/console-stream.ts:28-59 | Which socket is live, from the events alone: a closed socket is replaced, once, when the timer of its closing fires |
| `ConsoleStream.DelaysDouble` | frontend/src/features/console/console-stream.ts:85-87 | Half a second, doubling, at most ten seconds, never decreasing |
| `ConsoleStream.Client.OnClose` | frontend/src/features/console/console-stream.ts:49-59 | The close handler is the step of the state machine |
| `ConsoleStream.Client.DoConnect` | frontend/src/features/console/console-stream.ts:28-33 | `connect`: nothing once stopped, otherwise one new socket and no timer |
| `ConsoleStream.Client.OnOpen` | frontend/src/features/console/console-stream.ts:34-38 | Only the current socket of a live stream connects and resets the retries |
| `ConsoleStream.Client.OnMessage` | frontend/src/features/console/console-stream.ts:39-48 | Only a well-formed line on the current socket of a live stream is delivered |
| `ConsoleStream.Client.OnError` | frontend/src/features/console/console-stream.ts:60-62 | Only the current socket of a live stream is closed |
| `ConsoleStream.Client.OnTimer` | frontend/src/features/console/console-stream.ts:58 | A timer that has not fired reconnects |
| `ConsoleStream.Client.Dispose` | frontend/src/features/console/console-stream.ts:66-82 | The cleanup is the step of the state machine |
| `ConsoleLines.MergeConsoleLines` | frontend/src/features/console/console-lines.ts:9-17 | The two filling loops, sort and slice compute the merge |
| `ConsoleLines.MergeShows` | frontend/src/features/console/console-lines.ts:9-17 | The view is strictly ascending, at most 2000 lines, prefers live lines, and misses only what is older than a full view |
| `ConsoleLines.BoundingIsInvisible` | frontend/src/features/console/console-lines.ts:5-17 | Merging with the incrementally bounded live buffer shows what merging with every live line would |
| `ConsoleLines.BufferedIsLast` | frontend/src/features/console/console-lines.ts:5-7 | The bounded buffer is the last 2000 lines received |
| `Migrations.VersionOneUpgrades` | backend/internal/store/migrate.go:98-336 | A version-1 database, opened any number of times with any failures and then once without, is at version 4 with every user, session, backup, event and the secret carried over and no dangling reference; its one node and one server have every setting of one of the inputs, and every role was granted by the migration |
| `Migrations.OpensAdopt` | backend/internal/store/migrate.go:194-258 | Over any opens the one node and server are, field by field, those configured at some open that got past version 2; until then none did |
| `Migrations.NewerIsRefused` | backend/internal/store/migrate.go:271-276 | A ledger beyond version 4 is refused and left unchanged, one that ends at version 4 is opened unchanged |
| `Migrations.OpeningPreserves` | backend/internal/store/migrate.go:260-336 | However often opening fails and is repeated, with whatever fresh identifiers and times: same meaning, sound references, exactly the versions reached recorded |
| `Migrations.OpeningFinishes` | backend/internal/store/migrate.go:260-304 | An open without failures finishes from wherever earlier ones stopped |
| `Migrations.UpgradePreserves` | backend/internal/store/migrate.go:285-292 | A run of pending versions preserves the meaning and stops only at a failing version |
| `Migrations.Migrate1Preserves` | backend/internal/store/migrate.go:77-79 | Normalising times keeps meaning and references; a legacy time means its normal form |
| `Migrations.Migrate2Preserves` | backend/internal/store/migrate.go:194-258 | Adopting the configured server: identity and role now through the grant, backups attributed, ciphertext moved, no dangling reference |
| `Migrations.Migrate3Preserves` | backend/internal/store/migrate.go:146-162 | The identity columns change no event and make the log append-only |
| `Migrations.Migrate4Preserves` | backend/internal/store/migrate.go:167-182 | Sessions inherit their creation time as authentication time |
| `Migrations.VersionPreserves` | backend/internal/store/migrate.go:184-189 | One version keeps meaning and references and reaches the shape of the next |
| `Migrations.UsersAreUpgraded` | backend/internal/store/migrate.go:222-236 | Same identity; the old role is now the grant on the adopted server; exactly the administrators own the fleet |
| `Migrations.SessionsAreUpgraded` | backend/internal/store/migrate.go:167-182 | Same session, last authenticated when it was created |
| `Migrations.BackupsAreUpgraded` | backend/internal/store/migrate.go:247-250 | Same backup, owned by the adopted server |
| `Migrations.HistoryIsUpgraded` | backend/internal/store/migrate.go:146-153 | Same event at the same stored time, attributed to no server |
| `Migrations.SecretIsMoved` | backend/internal/store/migrate.go:218-221 | The ciphertext moves from the settings to the server unchanged, and no other setting is touched |
| `Migrations.Applied` | backend/internal/store/migrate.go:267-270 | The largest recorded version, or zero |
| `Migrations.Database.ReplaceUsers` | backend/internal/store/migrate.go:233-236 | Dropping and renaming keeps sessions and grants exactly when foreign keys are off |
| `Migrations.Database.ApplyPending` | backend/internal/store/migrate.go:285-292 | The loop over the list applies the versions after the recorded one, in order, up to a failure |
| `Migrations.Database.AdoptConfiguredServer` | backend/internal/store/migrate.go:194-258 | The ordered statements amount to one simultaneous change, because grants are read before roles are dropped and foreign keys are off |
| `Migrations.Database.ApplyMigration` | backend/internal/store/migrate.go:315-336 | The version and its ledger entry, or nothing |
| `Migrations.Database.Migrate` | backend/internal/store/migrate.go:260-304 | Refuses a newer schema, skips a current one, otherwise applies what is pending and checks references |
| `Migrations.RebuildWithForeignKeysOn` | backend/internal/store/migrate.go:278-284 | With foreign keys on, the users rebuild would delete every session |
| `Migrations.NormaliseIsFullWidth` | backend/internal/store/migrate.go:77-79 | Exact-second times become full width, other written times stay; so the result is full width if and only if the time has no fraction or one of nine digits |
| `Limiter.LoginLimiter.AllowAttempt` | backend/internal/httpapi/ratelimit.go:25-49 | The method decides and updates the map as the closed form says and keeps it within its bound |
| `Limiter.LoginLimiter.EvictExpired` | backend/internal/httpapi/ratelimit.go:28-34 | The deletion loop removes exactly the expired windows |
| `Limiter.LoginLimiter.Reset` | backend/internal/httpapi/ratelimit.go:51-55 | The key is gone and every other key keeps its window |
| `Limiter.StaysBounded` | backend/internal/httpapi/ratelimit.go:25-49 | The map never exceeds maxKeys |
| `Limiter.EvictionIsInvisible` | backend/internal/httpapi/ratelimit.go:25-49 | Except for capacity refusals, every decision is that of a limiter that never evicts |
| `Limiter.BoundedMirrorsReference` | backend/internal/httpapi/ratelimit.go:25-49 | After every run the bounded map agrees with the unbounded one wherever it has an entry, and lacks only expired windows |
| `Limiter.TimesAreGrouped` | backend/internal/httpapi/ratelimit.go:37-48 | The allowed times of a key fall into windows of at most `limit` that start at least a window apart |
| `Limiter.RetryTimeIsExact` | backend/internal/httpapi/ratelimit.go:25-49 | Whatever calls follow that do not reset the key: until the returned time has passed every attempt is refused with just the time that remains; from then on the first is allowed, unless an evicted key finds no room |
| `Limiter.CapacityIsExact` | backend/internal/httpapi/ratelimit.go:28-36 | An attempt is refused for lack of room if and only if its key has no entry and at least maxKeys keys were first allowed less than a window ago |
| `Limiter.FreshWindowAdmitsTheLimit` | backend/internal/httpapi/ratelimit.go:25-49 | With fewer such keys, the first attempt of a key without a current window is allowed, and so are its next ones within the window up to the limit, whatever other keys do; the further ones are refused with the time that remains |
| `Limiter.ResetStartsAfresh` | backend/internal/httpapi/ratelimit.go:51-55 | After a reset the next attempt is refused for lack of room at most |
| `Limiter.LoginAttemptsPerQuarterHour` | backend/internal/httpapi/ratelimit.go:21-23 | With the login rules: at most nine attempts per key in any 900000000000 nanoseconds, and never more than ten thousand keys |
| `Limiter.AttemptsPerWindow` | backend/internal/httpapi/ratelimit.go:25-49 | Any half-open interval one window long holds at most 2 * limit - 1 allowed attempts with a key that is not reset |
| `Rcon.Writer.WritePacket` | backend/internal/minecraft/rcon.go:92-107 | Sends the packet byte by byte as the protocol lays it out if its payload has at most 4194294 bytes, and otherwise refuses it and sends nothing |
| `Rcon.FrameOnTheWire` | backend/internal/minecraft/rcon.go:92-107 | The layout: length, identifier and type in four bytes each, the least significant first, the payload and two zero bytes |
| `Rcon.Reader.ReadPacket` | backend/internal/minecraft/rcon.go:109-127 | Reads and consumes exactly what the decoding function says, errors included |
| `Rcon.Reader.ReadFull` | backend/internal/minecraft/rcon.go:109-119 | All the bytes asked for, or the stream is used up |
| `Rcon.Decode32UndoesEncode32` | backend/internal/minecraft/rcon.go:92-104 | Little-endian two's complement round trip for every 32-bit integer |
| `Rcon.Encode32UndoesDecode32` | backend/internal/minecraft/rcon.go:109-127 | And back, for every four bytes |
| `Rcon.DecodeUndoesFrame` | backend/internal/minecraft/rcon.go:92-127 | A written packet followed by anything is read back and leaves the rest |
| `Rcon.FrameUndoesDecode` | backend/internal/minecraft/rcon.go:109-127 | Every accepted frame is reproduced byte for byte |
| `Rcon.StreamDecodes` | backend/internal/minecraft/rcon.go:92-127 | Concatenated frames decode to the packets sent |
| `Forwarded.SourceIp` | backend/internal/httpapi/middleware.go:154-176 | A peer that does not parse or is not a trusted proxy is the answer whatever list it sent; otherwise the rightmost hop that is not a trusted proxy decides, or the leftmost if all are |
| `Forwarded.PeerDecides` | backend/internal/httpapi/middleware.go:159-161 | Only a trusted proxy is believed |
| `Forwarded.TrimCutsBlanks` | backend/internal/httpapi/middleware.go:165 | Exactly the ASCII blanks on both sides of a hop are cut off |
| `Forwarded.TrustedProxy` | backend/internal/httpapi/middleware.go:178-185 | True exactly when some configured network contains the address |
| `Forwarded.RightmostUntrustedHop` | backend/internal/httpapi/middleware.go:164-175 | The rightmost hop that is not a trusted proxy decides: its address, the direct peer if it does not parse, the leftmost if all are trusted |
| `Forwarded.ForwardAddsAHop` | backend/internal/httpapi/middleware.go:163-165 | Appending a peer to any list adds exactly that hop at its right end |
| `Forwarded.ClientBehindProxies` | backend/internal/httpapi/middleware.go:154-176 | Through any chain of trusted proxies that append their peers, the result is the untrusted client whatever list it sent |
| `Accounts.Store.CreateInitial` | backend/internal/store/users.go:19-39 | Creates the user, enabled and as given, and the grant with its role together, only while there is no user at all; otherwise the tables stay |
| `Accounts.Store.Insert` | backend/internal/store/users.go:58-69 | The account field by field and the grant that carries its role, or neither, exactly when someone has that name in whatever letters or an identifier is taken |
| `Accounts.Store.SetOwner` | backend/internal/store/users.go:119-150 | Refuses an unknown user, a disabled new owner and the demotion of the one active owner, exactly; otherwise sets that one flag of that user |
| `Accounts.OwnerStep` | backend/internal/store/users.go:119-186 | No single operation removes the final active fleet owner |
| `Accounts.Store.Revoke` | backend/internal/store/sessions.go:59-65 | Revokes an unrevoked session once and keeps an earlier revocation time |
| `Accounts.Store.CreateFor` | backend/internal/store/sessions.go:11-20 | Succeeds exactly for a new token and a known user, then adds that session; every other session and the accounts stay |
| `Accounts.Store.RevokeAll` | backend/internal/store/sessions.go:67-73 | Marks exactly the unrevoked sessions of the user, and changes nothing else of any session |
| `Accounts.NewSessionIsStored` | backend/internal/store/sessions.go:11-20 | Refused only for a token in use or an unknown user; otherwise the session stands beside the others and its times read back, the authentication time being the creation time unless given |
| `Accounts.LoginAuthenticates` | backend/internal/store/sessions.go:11-44 | After a login the token authenticates exactly its user, through any operations that do not revoke, disable or purge it, while a second or more remains; and no one from a second after its end |
| `Accounts.RevokingAllIsExact` | backend/internal/store/sessions.go:67-73 | Exactly the user's unrevoked sessions are marked, with a time that reads back; everything else stays |
| `Accounts.RevokingAllLocksOut` | backend/internal/store/sessions.go:67-73 | None of the user's tokens is accepted any more, every other token as before |
| `Accounts.Store.Purge` | backend/internal/store/sessions.go:75-81 | Deletes exactly the sessions that are revoked or whose stored expiry sorts before now |
| `Accounts.Store.Disable` | backend/internal/store/users.go:152-186 | Refuses exactly the one active owner and unknown users; otherwise disables that user, revokes in the same commit and changes nothing else of any user |
| `Accounts.Store.Renew` | backend/internal/store/sessions.go:46-57 | Moves the authentication time of an open session, or reports that there is none |
| `Accounts.FleetAlwaysHasAnOwner` | backend/internal/store/users.go:119-186 | Once an active fleet owner exists, one exists after every run of operations |
| `Accounts.SetupSucceedsOnce` | backend/internal/store/users.go:19-39 | After one successful setup every later one is refused and changes nothing |
| `Accounts.AccountsHaveGrants` | backend/internal/store/users.go:56-69 | In every state the accounts are exactly those with the grant they were created with |
| `Accounts.DisablingRevokes` | backend/internal/store/users.go:152-186 | Disabling leaves no unrevoked session of the user at that commit, and touches no other user's |
| `Accounts.DisabledNeverAuthenticates` | backend/internal/store/sessions.go:22-44 | No token ever authenticates a disabled user |
| `Accounts.RevokedNeverAuthenticates` | backend/internal/store/sessions.go:22-65 | A revoked token is never accepted again |
| `Accounts.ReauthenticationIsLocal` | backend/internal/store/sessions.go:46-57 | It succeeds exactly on an open session and changes one field of that session only |
| `Accounts.ReauthenticationTime` | backend/internal/store/sessions.go:46-57 | The field reads back as the time of the reauthentication |
| `Accounts.ExpiryErrsBelowASecond` | backend/internal/store/sessions.go:27 | A session is open while more than a second remains and closed a second after its end |
| `Accounts.PurgeErrsBelowASecond` | backend/internal/store/sessions.go:76 | A purge errs by less than a second too |
| `Accounts.ExpiryIsExact` | backend/internal/store/sessions.go:22-81 | A session is open exactly until its end, and purged exactly after it, if and only if the two times are not in one second with the earlier fraction a prefix of the later |
| `Accounts.ExpiredSessionIsOpen` | backend/internal/store/sessions.go:27 | A time that shows it: half a second after its end such a session is still open |

## Left out

- Container actions and console commands do not take the mutex, so the interleaving theorem does not speak of them.
- A world path that is a dangling link: `os.Stat` does not find it, so the code passes it over when staging and removes it in a recovery, while `Trees.Special` nodes are found, set aside and put back.
- What the game server itself writes while an archive is made; that it does not is what the save-off and flush are for.
- Renames are atomic and nothing else edits the data directory; a failed `RemoveAll` may leave any remainder of the tree. The names `MkdirTemp` chooses are fresh and not those of a world.
- The backup catalogue and the backup files: `BackupPath`, the rename that publishes an archive and the catalogue row are one success or failure.
- Bytes of gzip, tar and ZIP containers, file modes and times; an archive is its entries in order.
- SQL text, indexes, `legacy_alter_table`, the CHECK constraints and the uniqueness constraints other than those of users and audit rows; queries are given by their meaning.
- `loadAdoptedServer` and its comparison with the environment after the migrations.
- Per-server grants after creation (`SetServerGrant`, `RevokeServerGrant`), roles and permissions, password hashing, cookies and CSRF.
- The identity columns of audit events that paging and filtering never read are absent from `Audit.Row`; migration 3 carries them.
- HTTP, JSON and CSV encoding of pages, cursors and exports, including spreadsheet escaping.
- RCON dialling, authentication and the reassembly of multi-packet replies in `Exec`.
- Hub details: `RecentWarnings`, wrap-around of the 64-bit line number, and a rotation to a file at least as long as the offset, which the code cannot detect.
- Stream details: a socket constructor that throws and handlers that call the cleanup re-entrantly.
- Clock details: saturation of durations, monotonic readings, and years beyond 9999.
- Timestamps.ParseTime: reads the two forms the store writes; other RFC 3339 forms, such as numeric offsets, have no reading.
- Address parsing and printing are parameters; blanks are the ASCII ones; several forwarded headers are not distinguished from the first.
- ZipLevel.UploadIsRecognised: one direction; where the level entry was passed over, another entry can supply level.dat by an unusual name.
- React components, routing, configuration parsing and formatting.
