# RestoreSafe: model and proofs

This project models the parts of RestoreSafe where a claim runs across several
packages, and proves what they promise, or exactly when they keep it: that a
differential restores the later state from two archives, that a set of part
files is read back as it was written or not at all, that an interrupted backup
is never read as a complete one, and that the two concurrent protocols keep
their rules in every interleaving.

| modules | what they model |
|---|---|
| Walk, TarBuilder, Reuse | the walk of a source under an arbitrary schedule of read faults: as functions on trees, and as the imperative run that is proved to do the same; which files it reads |
| WalkLaws, WalkValid, WalkMeasure | what every walk keeps: counts, offsets, manifest validity, sizes |
| Manifest, ManifestCodec, Paths, Tar | the manifest, its text of lines, its path rules, and TAR streams of names, sizes, contents and padding |
| FileSystem, Destination, Decide, Restorer | the case-insensitive destination, the deciders, the restorer |
| WinFile | file times, from Windows to the manifest and back |
| Differential, EndToEnd, RestorePoint | the restored state as a whole, from a source through all layers to a destination |
| Binary, Wrappers, Crypto, Io | bytes, optional values, the foreign primitives as parameters, readers and writers that may fail |
| ChunkStream, SetHeader, Trailer, Container, Split, Parts, SetReader | container format 2, from the encrypted chunk to the part files and back |
| Naming, Commit, Catalog, Inventory, Pipeline | file names, the rename step with its crash states, discovery, opening what was found, the goroutines of setwriter.Write |
| Bridge, Lock, Recovery | the UI bridge, the lock file, recovery codes |

What is taken as given, always as a hypothesis of the lemmas that need it:

- AES-GCM opens exactly what it sealed and adds 16 bytes (sections 7.1 and 7.2
  of NIST SP 800-38D), SHA-256 and HKDF are functions with results of fixed
  length. No secrecy and no collision resistance is assumed; only what is said of
  keys and nonces asks that HKDF gives different keys for the headers and sections
  at hand (`Container.KeysDiffer`). The chunk size is any positive number whose
  chunks fit the 32-bit length field.
- A file whose size, last-write time and change time equal those of the full
  backup has its content, creation time and attributes (`Differential.Faithful`).
- An access that reports that an entry does not exist means that it was deleted.
  A read that fails after the TAR header was written makes a file unreadable
  whatever the reason, as section 6.5 of docs/SPEC-core.md says of void entries.
- The JSON encoders are injective, and a JSON object is not cut off and still an
  object; a TAR header (the pax interchange format of IEEE Std 1003.1) decodes to
  its name and size and is a whole number of 512-byte blocks. Where a line limit
  or a 64-bit size matters, it is a hypothesis on that manifest or set.
- Case is ignored by a function on characters that leaves `/` alone; siblings in
  a source differ also without case.
- `ExcludeMatcher.Match` is any predicate, and so is the test for excluded
  directories.

Functions hold the meaning of an operation; where the source changes state, a
class or a method with the source's loops and branches is proved equal to them.
`Shows` says what a volume holds during a restore; `Step` is one change on it,
after which any directories above the changed path may have new times, so that
the order of Finish matters.

## Where code, comments and specification differ

- A file that grew after it was opened, and whose new bytes cannot be read, is
  stored as intact without them: the probe for one more byte discards its error
  (internal/format/archive/build.go:424-427), although section 6.5 of
  docs/SPEC-core.md calls a size change unreadable. `Differential.GrownFileIsStored`
  gives the input; a stored file is whole, and a backup restores its source,
  exactly without it: `Differential.StoredIsWhole`, `Differential.DifferentialRestores`.
- A last-write or creation time of 1970-01-01T00:00:00Z is recorded as zero
  (internal/format/archive/winfile.go:41-46), and setTimes does not set a zero
  (winfile.go:106-113), so that the entry keeps the time of the restore
  (`WinFile.EpochIsLost`). The specification gives a zero the meaning of a missing
  value for the change time only. Times before 1677 or after 2262 wrap around.
  `WinFile.TimeIsRestored` says exactly which times survive; the restored state
  has all recorded times exactly when none is zero: `Restorer.RestoredExactly`,
  `EndToEnd.RestoreDifferential`.
- A directory that is deleted after addDir has recorded it and before the walk lists
  it is counted as vanished, and so logged as not in the backup, but its record
  stays (internal/format/archive/build.go:203-206 and 253): a restore creates it.
  Section 6.5 of docs/SPEC-core.md leaves out what is deleted while the backup is
  running. `Differential.VanishedDirIsKept` gives the input; the recorded
  directories are the wanted ones, and a backup restores its source, exactly
  without it: `Differential.RunCompares`, `RestorePoint.RestoreChain`.
- An entry whose information cannot be read is recorded before its path is
  checked (internal/format/archive/build.go:184-193). If the Info method of a
  directory entry fails for an entry that is named with one no-break space,
  `on_unreadable_file: skip` makes a manifest that Encode refuses
  (`WalkValid.RefusedNameBreaksSkipping`). The input needs such a directory entry;
  where listing a directory already gives the information of its entries, Info
  does not fail. `WalkValid.BackupSucceeds` gives the exact condition under which
  a backup is written.
- For an interrupted backup, discovery looks at names, sizes, header and trailer
  only. It would open a set without its last parts if the 64 bytes before them
  happened to be a trailer with its checksum that fits what is left; a read of it
  still fails: `Inventory.OpensAtStop`, `Inventory.InterruptedIsNeverComplete`.
- The prefix test of targetPath (internal/format/archive/restore.go:61-65)
  compares with the cleaned destination and one more separator. For the root of
  a volume, whose cleaned name ends in a separator, it would refuse every entry;
  anywhere else it refuses nothing that ValidatePath accepts
  (`Destination.TargetPathIs`). The one caller that restores passes a directory
  it has just created (internal/workflow/restore/run.go:195-212), so that the
  case does not arise.
- Trailer.check alone would accept lengths whose sum overflows; the size test
  before it (internal/format/container/set.go:176-178) is what rules that out
  (`Trailer.SizeTestNeeded`, `Trailer.ChecksTile`).

## Model

| member | source | states |
|---|---|---|
| Differential.DifferentialRestores | internal/format/archive/restore.go:256-294 | For every earlier and later source, every schedule of read faults and every length of the TAR headers: feeding a restore the full backup's section through DecideFromBase and the differential's through DecideOwn, in either order, gives what the run has seen of the later source, with current times and attributes (those of the full backup for files that could not be read) and nothing missing; the contents are the wanted ones if and only if no stored file stopped being readable exactly at the size it had when it was opened, with more content behind it, and the directories if and only if no recorded directory was gone when it was listed |
| Differential.FullRestores | internal/format/archive/restore.go:274-294 | The same for a full backup fed through DecideOwn and the state of its source |
| Differential.VisitAllProvides | internal/format/archive/build.go:157-310 | What a run that is not aborted writes down is exactly what it has seen of its source, for unmodified, stored, stale, skipped, vanished and excluded entries alike, under the one hypothesis that equal size, last-write and change time mean equal content, creation time and attributes |
| Differential.SeenTree | internal/format/archive/build.go:157-310 | What a run has seen of a source has the wanted contents exactly when every stored file is whole, always the wanted times and attributes of files and all wanted directories, and no other directories when none was gone at its listing |
| Differential.LostTree | internal/format/archive/build.go:200-206 | When a recorded directory was gone at its listing, the run has recorded a directory at a path where the wanted state has nothing |
| Differential.RunCompares | internal/format/archive/build.go:157-310 | For every run that is not aborted and records distinct paths: the contents seen are the wanted ones exactly when every stored file is whole, and the directories recorded are the wanted ones exactly when no recorded directory was gone at its listing |
| Differential.VanishedDirIsKept | internal/format/archive/build.go:200-254 | A directory deleted between its record and its listing is counted as vanished and nevertheless stays in the manifest |
| Differential.StoredIsWhole | internal/format/archive/build.go:404-427 | A file that is stored as intact has its whole content exactly when reading did not stop with an error at its first size with more content behind it |
| Differential.GrownFileIsStored | internal/format/archive/build.go:424-427 | A file that grew, and whose new bytes cannot be read, is stored as intact without them |
| Differential.ChainFacts | internal/format/archive/build.go:259-330 | A differential refers only to files the full backup holds, with their size and hash |
| EndToEnd.Restore | internal/workflow/restorepoint/restorepoint.go:83-110 | A restore that ends without an error leaves on the volume the tree of the manifest on top of what was there, with the contents the sections give; with an error that is not the volume's the sections are refused, a file is missing or the destination is a volume root; into an empty destination nothing conflicts; outside the destination nothing changes in any case |
| EndToEnd.RestoreDifferential | internal/workflow/restorepoint/restorepoint.go:83-110 | Restoring a differential into an empty destination fails only when the volume refuses an operation or the destination is a volume root; otherwise the destination holds exactly what the run has seen of the later source, where a time recorded as zero was not set, and it holds exactly the later state (files with content, times and attributes, directories with theirs, nothing else) if and only if every stored file is whole, no recorded directory was gone at its listing, and no time was recorded as zero |
| EndToEnd.RestoreFull | internal/workflow/restorepoint/restorepoint.go:83-110 | The same for a full backup and the state of its source |
| EndToEnd.ShownIsHeld | internal/format/archive/restore.go:187-227 | What a finished restore into an empty destination shows is exactly the state that its manifest and contents describe, where a time recorded as zero was not set |
| EndToEnd.HoldsWanted | internal/format/archive/restore.go:187-227 | A destination that holds what was seen holds the wanted state exactly when no file differs in content, no directory is there too much and no time is zero |
| EndToEnd.MarksAreDated | internal/format/archive/winfile.go:98-119 | The times that were set are the recorded ones exactly when none of them is zero |
| EndToEnd.FlagsAreKept | internal/format/archive/winfile.go:58-138 | From the attributes of a source file or directory through its manifest entry to the restored one: bits 0x1, 0x2 and 0x4 are each as they were, and no other bit is set |
| EndToEnd.BackupReadsBack | internal/format/container/set.go:56-102 | A source directory backed up, written as a set, split and joined reads back as its TAR entries and its manifest |
| EndToEnd.PartsReadBack | internal/format/container/set.go:56-102 | The parts of a written set are as many as its trailer records; together they read as what was written; while the last ones are missing no complete read succeeds, under any keys and any count |
| RestorePoint.RestoreChain | internal/workflow/restorepoint/restorepoint.go:41-110 | Two sets written from an earlier and a later source, each opened from its part files, decrypted, their manifests decoded, validated and linked, and restored into an empty destination: it fails only when the volume refuses an operation or the destination is a volume root; otherwise the destination holds what the run has seen of the later source, and exactly the later state if and only if every stored file is whole, no recorded directory was gone at its listing, and no time was recorded as zero |
| RestorePoint.RestoreBackup | internal/workflow/restorepoint/restorepoint.go:41-110 | The same for one full set and its source |
| RestorePoint.Read | internal/workflow/restorepoint/restorepoint.go:51-110 | Before anything is written the part files say what to restore, or nothing is written; files are then extracted while the data sections are decrypted, also from a section that later turns out damaged; a read that succeeds has opened every chunk of both sections of the set and of its base, and the volume shows the tree of the manifest on top of what was there; otherwise the volume failed, or the data are refused or incomplete; nothing outside the destination changes |
| RestorePoint.Load | internal/workflow/restorepoint/restorepoint.go:51-127 | Part files are accepted exactly when they pass the structural check, manifest sections decrypt, manifests are valid and belong to their headers, and the base is the full backup the differential names; if both sets are readable with valid manifests, the base is refused as the wrong one exactly when it is a differential itself or its chain ID, directory name, key set ID, date or manifest hash is not the one the differential records |
| RestorePoint.ReadManifest | internal/format/container/set.go:214-242 | A manifest is returned exactly when the text is that of a valid manifest whose header has the set's type, chain, number and directory; the error says which of the two fails |
| RestorePoint.LoadsOne | internal/workflow/restorepoint/restorepoint.go:51-82 | Part files describe one restore point at most |
| RestorePoint.ChainLoads | internal/workflow/restorepoint/restorepoint.go:51-82 | The part files of a written chain describe the manifest of the later run and the TAR streams of both runs |
| RestorePoint.BackupIsRead | internal/format/container/set.go:56-242 | The part files of a written set read back as its header, TAR stream and manifest text, and the manifest is decoded and belongs to the header |
| TarBuilder.BuildTar | internal/format/archive/build.go:101-110 | The imperative run ends as the reference walk Backup says: its entries, TAR bytes, counters and progress, or its error, unless the context was seen to be cancelled or the writer refused a write |
| Reuse.VisitAllReads | internal/format/archive/build.go:257-330 | Of every source and under every schedule of read faults: the files whose content a run stores are, in order, exactly those that can be read and have no base entry or differ from it in size, last-write or change time; those it refers to as up to date are exactly the others it comes to; both are counted |
| Reuse.AddFileReads | internal/format/archive/build.go:257-288 | The same for one file |
| TarBuilder.Builder.Visit | internal/format/archive/build.go:157-198 | One callback does what the walk says of its entry, and only directories are answered with SkipDir, so no sibling is lost |
| TarBuilder.Builder.Unlisted | internal/format/archive/build.go:200-217 | A directory that cannot be listed: the record of it becomes the skipped entry |
| TarBuilder.Builder.Unstatable | internal/format/archive/build.go:219-235 | An entry without information: vanished, an error, skipped or stale |
| TarBuilder.Builder.AddDir | internal/format/archive/build.go:237-255 | A directory is recorded, vanished, an error or skipped |
| TarBuilder.Builder.AddFile | internal/format/archive/build.go:257-288 | A file whose size, last-write time and change time are those of its base entry adds one reference to the full backup without an offset and nothing else, and no TAR byte; any other is stored, vanished, an error, stale or skipped, as the reference says |
| TarBuilder.Builder.SkipFile | internal/format/archive/build.go:297-310 | An unreadable file keeps the base's version or is recorded as skipped |
| TarBuilder.Builder.WriteFile | internal/format/archive/build.go:370-441 | Unless a write fails, the TAR entry holds exactly its declared size under every read fault, its recorded offset is the length of the archive before it, and the fault is reported as the reference says |
| TarBuilder.Builder.Copy | internal/format/archive/build.go:404-409 | The bytes copied and counted are those that reading delivers, up to the declared size |
| TarBuilder.Builder.WalkEntry | internal/format/archive/build.go:101-110 | An entry and everything below it, with both callbacks for a directory |
| TarBuilder.Builder.WalkAll | internal/format/archive/build.go:101-110 | The children of a directory in order, stopping at the first error |
| WalkLaws.BackupConsistent | internal/format/archive/build.go:157-310 | Whatever faults a run met: skipped and stale counts equal the footer's, stored + unmodified + stale equals its files, and the TAR holds, in order, exactly the content and void entries of the manifest, at the recorded offsets and with the recorded sizes and hashes |
| WalkValid.ManifestValid | internal/format/manifest/manifest.go:283-342 | The manifest of a run that is not aborted passes Validate exactly when every entry recorded without its information has an acceptable path |
| WalkValid.BackupSucceeds | internal/format/archive/build.go:157-310 | A run is not aborted and Encode accepts its manifest, exactly when everything that is not excluded can be read or skipped and has an acceptable path, unless it is special or was deleted before its information was read; an entry whose information cannot be read needs an acceptable path and the skip option |
| WalkValid.RefusedNameBreaksSkipping | internal/format/archive/build.go:184-193 | An entry with a refused name whose information cannot be read is recorded as skipped before its path is checked, and the code itself refuses the manifest |
| WalkValid.BlankIsRefused | internal/format/manifest/manifest.go:424-426 | One no-break space, which Windows allows as a name, is refused |
| WalkValid.FitsIsValid | internal/format/manifest/manifest.go:311-335 | Validity of entries read one after the other is validity of the whole manifest |
| WalkMeasure.VisitAllAccounts | internal/format/archive/build.go:504-537 | When nothing goes wrong with what is not excluded, and files that are read keep their listed size, for full backups and differentials: the progress counter, the footer's total bytes and MeasureSource.Total are the same number, and nothing is skipped, stale or vanished |
| Reuse.MeasureAllReaches | internal/format/archive/build.go:504-537 | MeasureSource counts the listed sizes of exactly the files that a run comes to, as long as no directory on the way fails to give its attributes, whatever else fails |
| Tar.ParseArchive | internal/format/archive/build.go:370-441 | A written archive is read back entry by entry and ends cleanly |
| Tar.ParseFromOffset | internal/format/archive/build.go:393-402 | Reading from the offset of an entry gives that entry and those after it |
| Tar.OffsetsIncrease | internal/format/archive/build.go:393-402 | Offsets of later entries are strictly larger |
| Tar.ArchiveBlocks | internal/format/archive/build.go:393-402 | An archive is a whole number of 512-byte blocks and ends in two blocks of zeros |
| Tar.DamagedArchive | internal/format/archive/restore.go:100-117 | A stream with something behind its end, a header that is none, or content that is cut off does not end cleanly |
| Restorer.RestoredExactly | internal/format/archive/restore.go:187-227 | After a restore into an empty destination: exactly the manifest's files and directories; files with recorded size, hash and attributes; and every file and directory has its recorded times exactly when neither of them is zero, although every change inside a directory may touch its times |
| Restorer.Restorer.constructor | internal/format/archive/restore.go:53-55 | A new restorer has restored nothing and changed nothing |
| Restorer.Restorer.CreateDirectory | internal/format/archive/restore.go:83-92 | One directory is created at its place, where nothing was; a path is refused only in a volume root |
| Restorer.Restorer.CreateDirectories | internal/format/archive/restore.go:72-95 | All directories of the manifest are there, bare; into an empty destination no path exists already and no parent is missing; in verify mode the volume is untouched |
| Restorer.Restorer.CopyFile | internal/format/archive/restore.go:155-168 | A file is created only where nothing was, and holds what the stream has of it |
| Restorer.Restorer.Stamp | internal/format/archive/restore.go:170-173 | Times other than zero are set and restorable attributes added, on this path only |
| Restorer.Restorer.ExtractFile | internal/format/archive/restore.go:139-174 | A file is accepted exactly with its size and hash, and is then on the volume with its attributes and those of its times that are not zero; a refusal means damage |
| Restorer.Restorer.ExtractItem | internal/format/archive/restore.go:113-135 | One TAR entry is taken, passed over or refused as Take says |
| Restorer.Restorer.ExtractSection | internal/format/archive/restore.go:100-137 | A section without an error was taken whole and ended cleanly; an error that is not the volume's means it must be refused |
| Restorer.Restorer.ExpectOwnContentOnly | internal/format/archive/restore.go:49-49 | Finish then asks for the files of this set only |
| Restorer.FindMissing | internal/format/archive/restore.go:188-195 | The missing files in manifest order |
| Restorer.NothingMissing | internal/format/archive/restore.go:188-200 | No file is reported missing exactly when every expected file was restored |
| Restorer.DirectoriesOf | internal/format/archive/restore.go:205-210 | The directory entries, all of them and no others |
| Restorer.DeepestFirstSorts | internal/format/archive/restore.go:211-213 | The same directories, none behind a less deep one |
| Restorer.Restorer.FinishDirectory | internal/format/archive/restore.go:214-225 | A directory gets those of its times that are not zero while the ones finished before, none of them above it, keep theirs |
| Restorer.Restorer.FinishDirectories | internal/format/archive/restore.go:205-226 | All directories end with their attributes and those of their recorded times that are not zero |
| Restorer.Restorer.Finish | internal/format/archive/restore.go:187-227 | Either exactly the missing files are reported, or the whole tree is finished |
| Restorer.PlaceIsFree | internal/format/archive/restore.go:72-95 | In an empty destination an entry of a validated manifest finds its directory there and its own place free |
| Destination.TargetPathIs | internal/format/archive/restore.go:57-67 | targetPath accepts exactly the paths of ValidatePath and puts them below the destination; its own traversal test never refuses more, except that it refuses everything in a volume root |
| Destination.TimesAreRestored | internal/format/archive/winfile.go:98-119 | A restored file or directory has its recorded times exactly when neither is zero |
| WinFile.TimeIsRestored | internal/format/archive/winfile.go:39-119 | With the wrap-around of int64, a file time survives recording and restoring exactly when it lies within an int64 of nanoseconds around 1970 and is not the first moment of 1970 |
| WinFile.EpochIsLost | internal/format/archive/winfile.go:41-46 | The first moment of 1970 is recorded like a time that is not known, and is lost |
| WinFile.EpochIs | internal/format/archive/winfile.go:39-57 | The two clocks are 369 years with 89 leap days apart, and divisions truncate toward zero |
| Destination.BelowIsDeeper | internal/format/archive/restore.go:183-186 | What lies below a directory is deeper, so deepest first is safe |
| Destination.ShowsStep | internal/format/archive/restore.go:139-174 | A change of one node keeps the rest of the restored tree |
| Destination.ContainedStep | internal/format/archive/restore.go:57-67 | A change below the destination leaves everything outside as it was |
| FileSystem.Volume.Create | internal/format/archive/restore.go:155-158 | A node is created only where none is and its directory exists |
| FileSystem.Volume.Write | internal/format/archive/restore.go:159-163 | Appends the data, or a part of it on an error |
| FileSystem.Volume.SetTimes | internal/format/archive/winfile.go:98-119 | Sets the times that are not zero |
| FileSystem.Volume.SetAttributes | internal/format/archive/winfile.go:121-138 | Adds the restorable attributes |
| Decide.BuildIndex | internal/format/archive/restore.go:262-265 | The entries by path |
| Decide.DecidersPartition | internal/format/archive/restore.go:256-294 | Of a validated differential the two deciders take disjoint sets of files that together are exactly the manifest's files |
| Decide.OwnTakesAll | internal/format/archive/restore.go:274-294 | In a full backup the own decider takes every file and nothing else |
| Decide.OwnRefusesOthers | internal/format/archive/restore.go:256-294 | Of a set's own data exactly the names without a content or void entry are refused and exactly the void ones passed over; the full backup's data is never refused |
| Decide.FeedOnlyAdds | internal/format/archive/restore.go:100-137 | A section adds contents of new names only, one for each entry extracted, and changes none |
| Decide.FedIsSound | internal/format/archive/restore.go:100-137 | After any streams fed through deciders of a validated manifest in any order, accepted and with no file missing, there is content for exactly its files, with recorded size and hash |
| Decide.TakeIsSound | internal/format/archive/restore.go:123-135 | An entry that is taken has the size and hash of the manifest |
| Manifest.ComputeFooter | internal/format/manifest/manifest.go:193-213 | The footer is the totals of the entries |
| Manifest.Builder.constructor | internal/format/manifest/manifest.go:133-140 | A new builder has the format's version and hash algorithm and no entries |
| Manifest.Builder.Add | internal/format/manifest/manifest.go:143-145 | Appends one entry |
| Manifest.Builder.SkipLastDirectory | internal/format/manifest/manifest.go:151-161 | Converts the last entry exactly when it is that directory |
| Manifest.CheckEntry | internal/format/manifest/manifest.go:313-335 | An entry passes exactly when it fits behind those before it; otherwise the answer says what is wrong: its path, the same path again, one that differs in case only, no directory, or an illegal entry |
| Manifest.Validate | internal/format/manifest/manifest.go:283-342 | Accepts exactly the valid manifests: parents first, no collisions even in case, legal entries, correct totals; of any other it tells the first thing that is wrong |
| Manifest.EntriesExactly | internal/format/manifest/manifest.go:344-403 | An entry is legal exactly as a directory or skipped entry without content, or as a file with a hash in one place of a full backup or three of a differential, with no attribute but read-only, hidden and system |
| Manifest.ManifestsExactly | internal/format/manifest/manifest.go:283-342 | The manifests that are valid, in numbers and texts: version 1, SHA-256, full or one of 999 differentials; legal entries with clean paths, no two alike without case, each below a directory before it; the footer counts them |
| ManifestCodec.Encode | internal/format/manifest/manifest.go:170-191 | Writes the lines of the manifest exactly when Validate accepts it |
| ManifestCodec.ReadLines | internal/format/manifest/manifest.go:224-259 | Reads the manifest the lines are of, and refuses exactly lines of no manifest, for the first line that is not what it must be |
| ManifestCodec.Decode | internal/format/manifest/manifest.go:217-263 | Returns the manifest whose lines the text has and that Validate accepts, and refuses exactly when there is none |
| ManifestCodec.ScansExactly | internal/format/manifest/manifest.go:217-224 | The text is cut at line feeds, one carriage return before each is dropped, and a line of a mebibyte ends it |
| ManifestCodec.DecodesEncoded | internal/format/manifest/manifest.go:166-263 | What was written reads back as the same manifest and as no other |
| ManifestCodec.TruncatedManifest | internal/format/manifest/manifest.go:252-259 | A manifest text cut off anywhere is read exactly when only its last line break is missing |
| Paths.AcceptedPaths | internal/format/manifest/manifest.go:420-442 | ValidatePath accepts exactly the relative paths of plain segments that are not blank and have no backslash, colon or NUL |
| Paths.CleanIffPlain | internal/format/manifest/manifest.go:433-435 | A path without dot segments is clean exactly when no segment is empty |
| Paths.DirOfChild | internal/format/manifest/manifest.go:326-328 | path.Dir leads from an entry back to its directory |
| Paths.CleanLaws | internal/format/manifest/manifest.go:433-435 | path.Clean leaves out empty segments, single dots and what double dots take back, wherever they are, and nothing else |
| Paths.SpacesAre | internal/format/manifest/manifest.go:424-426 | The characters that strings.TrimSpace removes |
| ChunkStream.ChunkParams.constructor | internal/security/cryptox/crypto.go:343-347 | The buffers of a stream hold its prefix and leading zeros |
| ChunkStream.ChunkParams.Nonce | internal/security/cryptox/crypto.go:355-358 | The reused buffer holds the nonce of this chunk |
| ChunkStream.ChunkParams.Aad | internal/security/cryptox/crypto.go:369-374 | The reused buffer holds the associated data of this chunk |
| ChunkStream.WriteEncryptedChunk | internal/security/cryptox/crypto.go:321-334 | Writes the chunk, or a prefix of it on an error |
| ChunkStream.EncryptStream | internal/security/cryptox/crypto.go:224-249 | Writes the encoded stream exactly when nothing fails, and never anything but a prefix of it; the error says whether the key, the plaintext or the writer failed |
| ChunkStream.ReadChunk | internal/security/cryptox/crypto.go:285-304 | One chunk is opened or refused as the stream semantics says |
| ChunkStream.DecryptChunk | internal/security/cryptox/crypto.go:280-313 | One turn of the loop, with what is written |
| ChunkStream.DecryptStream | internal/security/cryptox/crypto.go:255-315 | Writes and answers what the stream semantics says; on errors only a prefix of it |
| ChunkStream.DecryptCharacterized | internal/security/cryptox/crypto.go:255-315 | DecryptStream returns p exactly on the stream EncryptStream writes for p and, for whole chunks, on the one whose last full chunk is final |
| ChunkStream.DecodeEncode | internal/security/cryptox/crypto.go:224-315 | DecryptStream inverts EncryptStream for every input and chunk size |
| ChunkStream.DecodeAcceptsOnlyEncodings | internal/security/cryptox/crypto.go:255-315 | Everything accepted is an encoding of what is returned |
| ChunkStream.EncodedLength | internal/security/cryptox/crypto.go:224-249 | The stream has 21 bytes more than its plaintext for each of its chunks, whose number is the plaintext length divided by the chunk size, rounded down, plus one |
| ChunkStream.NoncesDistinct | internal/security/cryptox/crypto.go:224-249 | The calls of seal that make the encrypted stream of a plaintext use no nonce twice, exactly when the plaintext has at most 2^64 chunks |
| ChunkStream.SealingsMakeStream | internal/security/cryptox/crypto.go:224-334 | The bytes of those calls, framed, are the encrypted stream |
| ChunkStream.NonceOfCall | internal/security/cryptox/crypto.go:349-374 | Call number k of seal has the nonce of four zero bytes and the 64-bit counter k, big-endian; its associated data is the prefix, the counter and a flag that is 1 for the last call and 0 for the others |
| ChunkStream.PieceOfCall | internal/security/cryptox/crypto.go:224-249 | Call number k takes the k-th piece of the plaintext; the last one takes what is left |
| ChunkStream.FramedPrefixFree | internal/security/cryptox/crypto.go:267-314 | Framing alone makes streams prefix-free |
| ChunkStream.StreamsPrefixFree | internal/security/cryptox/crypto.go:255-315 | No accepted stream is a strict prefix of another, under any keys |
| ChunkStream.CutStreamRefused | internal/security/cryptox/crypto.go:255-315 | A stream cut anywhere is refused after a prefix of the plaintext |
| SetHeader.ReadHeaderFrom | internal/format/container/header.go:176-215 | Reading step by step gives the header of the stream and consumes exactly it |
| SetHeader.ReadsExactly | internal/format/container/header.go:101-215 | A header is read exactly from a stream that begins, byte by byte, with one of this format; any other stream is refused for the first thing that is wrong with it |
| SetHeader.WritesExactly | internal/format/container/header.go:101-172 | Exactly the valid headers of at most 64 KiB are written, as such streams |
| SetHeader.ReadEncoded | internal/format/container/header.go:149-215 | An encoded header reads back, whatever follows it |
| SetHeader.ReadIsPrefixStable | internal/format/container/header.go:176-215 | A header that was read is the same in every longer stream |
| Trailer.DecodeEncode | internal/format/container/trailer.go:33-69 | An encoded trailer decodes to itself |
| Trailer.DecodesExactly | internal/format/container/trailer.go:33-69 | Exactly these 64 bytes decode to a trailer: magic number, four 64-bit fields, part count, four zero bytes, and the first 16 bytes of the hash of all that |
| Trailer.DecodedInRange | internal/format/container/trailer.go:47-69 | Every decoded field is a 64-bit value |
| Trailer.ChecksTile | internal/format/container/trailer.go:73-87 | With 64-bit wrap-around and any decoded fields, the size test and check pass exactly when header, data, manifest and trailer tile the stream over the integers |
| Trailer.SizeTestNeeded | internal/format/container/set.go:176-178 | check alone would let an overflow pass: both lengths 2^63 - 1 |
| Container.WriteAll | internal/format/container/set.go:45-49 | Writes all of it, or a prefix with an error |
| Container.WriteSections | internal/format/container/set.go:69-86 | Data section, then manifest section, with their lengths |
| Container.WriteStream | internal/format/container/set.go:67-102 | Header, sections and a trailer that tells where they are |
| Container.WriteSet | internal/format/container/set.go:56-102 | Writes exactly the bytes of the set when nothing fails, otherwise a prefix |
| Container.SetNoncesDistinct | internal/format/container/keyset.go:294-305 | The calls of seal that make a set, over both of its sections, use no key and nonce twice, exactly when neither section has more than 2^64 chunks, for every HKDF that gives the two sections different keys |
| Container.SetsShareNoNonce | internal/format/container/keyset.go:294-305 | Two sets under one master key, with different header hashes, have no key and nonce in common |
| Container.SectionKeysAre | internal/format/container/keyset.go:29-31 | The keys are those of HKDF for the header hash and the two infos, so that each section of each set has its own |
| Container.AadDetermines | internal/format/container/set.go:25-29 | The associated data of a chunk tells header, section, chunk number and last-chunk flag |
| Container.SectionsDiffer | internal/format/container/set.go:25-29 | The prefixes are the header hash with section 1 or 2 |
| Container.StreamLayout | internal/format/container/set.go:67-102 | Where header, sections and trailer of a written set lie |
| Container.OpenedTiles | internal/format/container/set.go:171-191 | The sections of every opened set tile its stream |
| Container.SetRoundTrip | internal/format/container/set.go:56-249 | A written set, given as many parts as its trailer records, reads back as header, data and manifest |
| Container.ReadIsReceived | internal/format/container/set.go:200-256 | A set arrives whole at a restore, which decrypts the manifest section first and the data section while it extracts, exactly when it can be read whole |
| Container.SetsPrefixFree | internal/format/container/set.go:171-249 | No stream that passes Open, DecryptData and ReadManifest is a strict prefix of another that does, under any keys and part counts |
| Container.TruncatedSetRefused | internal/format/container/set.go:171-249 | A set that lost any bytes at its end never passes a complete read, however its ciphertext looks |
| Container.CutSetOpens | internal/format/container/set.go:171-191 | The structural check passes on a set that lost bytes at its end exactly when the bytes it now ends with happen to be a trailer that fits what is left |
| SetReader.ReadFullAt | internal/format/container/set.go:180-182 | All bytes asked for, or a stream that ends before them |
| SetReader.ReadStructure | internal/format/container/set.go:171-191 | On unchanged part files the answer is that of Open for the joined parts, unless opening or reading a part failed |
| SetReader.ReadTrailer | internal/format/container/set.go:176-190 | The trailer part of the same |
| Split.Writer.constructor | internal/format/container/split.go:52-58 | A new writer has no parts |
| Split.Writer.OpenNext | internal/format/container/split.go:138-159 | The next part is numbered on and empty |
| Split.Writer.CloseCurrent | internal/format/container/split.go:161-186 | No part is open afterwards |
| Split.Writer.WriteSome | internal/format/container/split.go:92-113 | As much as fits goes into the open part; a full one is closed |
| Split.Writer.WriteTurn | internal/format/container/split.go:85-113 | One turn of Write, opening a part when none is open |
| Split.Writer.Write | internal/format/container/split.go:79-116 | All bytes are in the parts, all but the last full and none empty; an error means that a file operation failed, and exactly the reported number of bytes is there |
| Split.Writer.Close | internal/format/container/split.go:119-121 | Closing keeps the parts |
| Split.WellSplitCount | internal/format/container/set.go:88-92 | The number of parts is the ceiling division the trailer records |
| Split.WellSplitUnique | internal/format/container/split.go:79-116 | A stream is split in one way only |
| Parts.PartsReader.constructor | internal/format/container/parts.go:22-33 | A reader with the measured offsets serves the joined stream |
| Parts.NewPartsReader | internal/format/container/parts.go:22-33 | Measures every part: the offsets of the parts in the joined stream, or no reader exactly when os.Stat fails |
| Parts.PartsReader.FirstStartBehind | internal/format/container/parts.go:48-48 | The binary search finds the first part behind an offset |
| Parts.PartsReader.OpenFile | internal/format/container/parts.go:68-83 | The part asked for is the open one |
| Parts.PartsReader.ReadFile | internal/format/container/parts.go:53-53 | A read inside one part |
| Parts.PartsReader.ReadTurn | internal/format/container/parts.go:45-63 | One turn of ReadAt delivers the next bytes |
| Parts.PartsReader.ReadAt | internal/format/container/parts.go:39-66 | With unchanged parts exactly the bytes of the joined stream at the offset, all of them or up to its end, unless opening or reading a part failed; the report of a changed part then cannot happen |
| Parts.PartHolds | internal/format/container/parts.go:48-53 | The part found for an offset holds the byte there |
| Naming.MatchIsUnique | internal/format/naming/naming.go:118-120 | The pattern reads every well-formed name in one way, whatever the directory name contains |
| Naming.PrintThenParse | internal/format/naming/naming.go:103-190 | A printed part name, final or temporary, parses back exactly for printable sets: names without separators and line breaks, 1 to 999 parts |
| Naming.ParseThenPrint | internal/format/naming/naming.go:122-169 | Every name that parses is the printed name of what it parses to |
| Naming.NamesExactly | internal/format/naming/naming.go:103-169 | Character by character: which names are those of a part, or of a part being written, and of which |
| Naming.KindsDisjoint | internal/format/naming/naming.go:118-256 | No name belongs to two of parts, temporary parts, 1.x files and logs |
| Naming.LegacyPartNameMatches | internal/format/naming/naming.go:172-180 | Part names of 1.x are recognised |
| Naming.LegacyChallengeNameMatches | internal/format/naming/naming.go:172-180 | Challenge names of 1.x are recognised |
| Naming.LegacyNamesOnly | internal/format/naming/naming.go:172-180 | Nothing else is taken for a file of 1.x |
| Naming.LogNameParses | internal/format/naming/naming.go:247-256 | A name is read as that of a log exactly when it is a date, an underscore, a run ID and .log |
| Commit.Folder.Rename | internal/format/setwriter/write.go:201-203 | A rename happens as a whole or not at all |
| Commit.FinalizeParts | internal/format/setwriter/write.go:191-207 | No file is overwritten; every name loses its .tmp and nothing else; the directory passes exactly through the states with the first k parts renamed, in order; the result tells how far it got and why it stopped: no suffix, a final name that is taken, or a rename of a missing file or one that was refused |
| Commit.StateAtStop | internal/format/setwriter/write.go:191-207 | At every error or crash point the final names are exactly those of parts 1 to k with the content that was written, the others keep their temporary names, and no other file is touched |
| Commit.NamesDiffer | internal/format/setwriter/write.go:103-105 | Final and temporary names of a set are all different |
| Catalog.ListParts | internal/format/catalog/inventory.go:33-62 | Every set that has a part, with its parts by number |
| Catalog.PartsFound | internal/format/catalog/inventory.go:33-62 | The parts found of a set are exactly its printed part names in the directory, ascending and each once |
| Catalog.CheckContinuity | internal/format/catalog/inventory.go:206-223 | Succeeds exactly on 1 to k with k at least 1; otherwise lists exactly the gaps, ascending |
| Inventory.OpenSet | internal/format/catalog/inventory.go:85-110 | A set is opened exactly when its parts in the directory are 1 to some number, their joined bytes pass the structural check and the header has directory, chain, date, number and type of the names; otherwise the answer says which of the three fails |
| Inventory.InterruptedIsNeverComplete | internal/format/setwriter/write.go:191-207 | Wherever the renaming of a written set stops, exactly parts 1 to k are found; as long as one is missing no complete read of them succeeds, under any keys; with all of them the set opens and reads back as written |
| Inventory.OpensAtStop | internal/format/catalog/inventory.go:85-110 | Wherever the renaming stops, discovery opens the parts it finds exactly when the name fits the header and either none is missing, or there is at least one and the bytes before the missing ones happen to be a trailer that fits what is left |
| Inventory.FoundAtStop | internal/format/catalog/inventory.go:33-62 | Wherever renaming stops, exactly the renamed parts are found, with the content that was written |
| Inventory.UnfinishedIsNotFound | internal/format/catalog/inventory.go:33-62 | As long as no part has its final name, nothing of the set is found |
| Pipeline.NeverDeadlocks | internal/format/setwriter/write.go:123-164 | In every interleaving, until Write has its outcome, some goroutine has a step that is not a failure |
| Pipeline.RunsEnd | internal/format/setwriter/write.go:123-164 | Every run ends after a bounded number of steps |
| Pipeline.Outcome | internal/format/setwriter/write.go:152-186 | At the end the producer's result was taken exactly once and no goroutine is left; the parts created are numbered from 1 and go on to their final names only when both sides ended without error, data and manifest are whole, and all of them are on disk; otherwise each of them is removed unless os.Remove refuses it; other files stay as they were |
| Pipeline.SucceedsExactly | internal/format/setwriter/write.go:123-186 | In every interleaving a backup that comes to its end goes on to the final names exactly when no step of it failed: reading the source, encoding the manifest, writing, closing the last part, or the number of parts; a part is left behind only when os.Remove refused to remove one |
| Pipeline.OpenedIs | internal/format/container/split.go:138-159 | The parts that openNext creates are the temporary names from 1 on, without a gap |
| Pipeline.TakenAtMostOnce | internal/format/setwriter/write.go:152-164 | The producer's result is never taken twice |
| Pipeline.StepKeepsInv | internal/format/container/set.go:112-131 | Every step keeps the invariant, also those of the manifest pipe |
| Pipeline.StepLowersRank | internal/format/setwriter/write.go:123-164 | Every step lowers the measure |
| Bridge.Bridge.Accept | internal/gui/flow/bridge.go:64-72 | The critical section of Ask |
| Bridge.Bridge.Next | internal/gui/flow/bridge.go:79-88 | The critical section of ShowNext |
| Bridge.Bridge.Answered | internal/gui/flow/bridge.go:90-96 | The critical section of the answer function |
| Bridge.Bridge.Close | internal/gui/flow/bridge.go:107-114 | The critical section of Close, and the questions it answers |
| Bridge.Bridge.Write | internal/gui/flow/bridge.go:125-129 | The critical section of Write |
| Bridge.Bridge.TakeOutput | internal/gui/flow/bridge.go:138-145 | The critical section of TakeOutput |
| Bridge.Bridge.Progress | internal/gui/flow/bridge.go:148-152 | The critical section of Progress |
| Bridge.Bridge.TakeProgress | internal/gui/flow/bridge.go:160-165 | The critical section of TakeProgress |
| Bridge.BridgeProtocol | internal/gui/flow/bridge.go:58-157 | In every interleaving: questions are shown first in first out and one at a time; a worker returns with the one reply to its question, the cancel answer when Close took it; a question that waits while none is shown has a message posted or in flight; taken plus buffered output is what was written; at most one output message is posted |
| Bridge.AnswersAreChoices | internal/gui/flow/bridge.go:58-105 | In every interleaving a reply that Close did not send is the first choice the user made for its question, and that is what the worker returns with |
| Bridge.RepliesStay | internal/gui/flow/bridge.go:58-60 | A reply once sent is the only one |
| Bridge.NeverStuck | internal/gui/flow/bridge.go:64-102 | An unanswered question is shown, or a step that leads there is enabled |
| Bridge.ChoiceArrives | internal/gui/flow/bridge.go:64-102 | A shown question whose worker waits can be answered with any value, and the worker comes back with it |
| Bridge.ClosedAnswersAll | internal/gui/flow/bridge.go:107-122 | When Close has finished every question ever asked is answered, those it took with the cancel answer |
| Bridge.TwoQuestionMessages | internal/gui/flow/bridge.go:64-72 | Questions are not coalesced, and need not be: two of their messages can be posted at a time |
| Bridge.StepKeepsInv | internal/gui/flow/bridge.go:58-157 | Every step keeps the invariant |
| Lock.Directory.Open | internal/fsx/lock.go:53-60 | The handle is one of the file that has the name, created if need be |
| Lock.Directory.LockFile | internal/fsx/lock.go:70-72 | The lock is granted exactly when it is compatible |
| Lock.AcquireBackupLock | internal/fsx/lock.go:35-45 | An exclusive lock on the file; or no handle left open, because the file could not be opened or the lock is not compatible |
| Lock.AcquireReadLock | internal/fsx/lock.go:52-66 | A shared lock, a lock that holds nothing exactly when the file could not be opened, or a report of a running backup exactly when the lock is refused |
| Lock.BackupLock.Release | internal/fsx/lock.go:78-89 | Lock and handle are gone, for a backup also the file; a second call changes nothing |
| Lock.ExclusiveExcludes | internal/fsx/lock.go:35-89 | In every interleaving of open, lock, unlock, close, remove and exit of any processes, a held exclusive lock excludes every other held lock |
| Lock.WhenGranted | internal/fsx/lock.go:70-72 | Exactly when a lock that is tried is granted |
| Lock.UnsafeIfOpenFilesWereRemovable | internal/fsx/lock.go:86-88 | If open files could be removed two backups could hold the lock |
| Lock.StepKeepsInv | internal/fsx/lock.go:35-89 | Every step keeps the invariant |
| Recovery.Generate | internal/security/recovery/recovery.go:64-82 | The data characters are the first 125 of the 128 bits although the accumulator overflows; the check is the checksum |
| Recovery.EveryCodeIsGenerated | internal/security/recovery/recovery.go:64-82 | Every string of 25 digits comes from some random bytes |
| Recovery.ValueInjective | internal/security/recovery/recovery.go:64-82 | Digit strings of one length with one value are the same |
| Recovery.RecoveryChecksum | internal/security/recovery/recovery.go:139-151 | The first 25 bits of the hash of the label and the characters, as five characters |
| Recovery.TypoIsFound | internal/security/recovery/recovery.go:112-143 | A code with other data characters and the check group of this one is refused as a typo exactly when the hashes of the two labelled texts, which differ, differ in their first 25 bits |
| Recovery.SomeHashFindsIt | internal/security/recovery/recovery.go:112-143 | No mistake in the data characters goes unnoticed under every hash function |
| Recovery.ChecksumIs | internal/security/recovery/recovery.go:139-151 | The check group is the one string that spells those bits |
| Recovery.Display | internal/security/recovery/recovery.go:44-58 | The 30 characters in order, with a dash after each five but the last |
| Recovery.Parse | internal/security/recovery/recovery.go:87-124 | For the characters left when the input is read tolerantly: the first that is no digit, or their number when it is not 30, or a typo exactly when the last five do not spell the first 25 hash bits of the others, or the code |
| Recovery.ParseDisplayed | internal/security/recovery/recovery.go:44-124 | A displayed code parses to itself |
| Recovery.AcceptedInputs | internal/security/recovery/recovery.go:87-124 | An input is accepted as a code exactly when the code is well formed and the input reads as its characters |
| Recovery.ParseTolerates | internal/security/recovery/recovery.go:84-107 | Separators anywhere, upper or lower case and I, L, O for 1, 1, 0 change nothing, in any context |

## Left out

- Restorer.Restorer.ExtractSection: the check against reparse points in the destination, because another process acting on the destination at the same time is not part of the model.
- Parts.PartsReader.ReadAt: says which bytes are delivered only while no other program changes the size of a part.
- Bridge.BridgeProtocol: assumes that the UI thread runs one handler at a time, as the window does; with an answer and Close at the same time the first one would win.
- Pipeline.Outcome: a pipe hands over one piece at a time; how a piece is divided among reads is not modelled.
- Lock.ExclusiveExcludes: leaves out locks that hold nothing, which a directory that cannot be locked gives to readers.
- Commit.FinalizeParts: a file of another process that appears between the test and the rename.
- The fields of the set header that no modelled code looks at (key slots, Argon2 parameters, creation time) are one abstract validity test.
- Sums of file sizes are integers without bound; the code adds them as 64-bit values.
- Argon2id (RFC 9106), HKDF (RFC 5869), AES-GCM and SHA-256 as algorithms, and the JSON, YAML and TAR byte syntax: foreign code behind parameters.
- MeasureSource.Changed, an estimate shown before a differential; configuration, exclude patterns, logging, formatting of sizes and dates, inventory order, fault classification: one-step functions that a reading of their bodies settles.
- Windows, views, the state machine of the GUI, YubiKey, WebAuthn, registry and clipboard code: foreign calls and layout.
- Planning, retention and unlocking of backups.
- Flushing to disk, network shares, speed: effects outside the logic.
