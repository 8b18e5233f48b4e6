# Personal productivity suite: verified model of its core

This project models in Dafny the non-GUI core of a small desktop productivity suite:

- the **notes manager**. Notes are kept as one JSON array that every operation reads whole and every mutation rewrites whole. The operations are list, add (the id is the maximum plus one), case-insensitive find, get, partial edit, delete, and export as txt, csv or json.
- the **data-directory snapshots** of `utils.py`:
  - `ensure_dirs` creates the data files.
  - `make_backup` zips the data directory into `data/backups/<prefix>_<YYYYMMDD_HHMMSS>.zip`.
  - `list_backups` returns the `.zip` names, sorted in descending order.
  - `restore_backup` extracts an archive over the data directory.
  - Two timestamp formats and the `read_json`/`write_json` store support these.
- the **backup manager**, a stateless facade over those functions.
- the **file organizer**. It groups the files of a directory by extension key and moves each group into a `<key>_files` folder, unless the run is a dry run.
- the **stopwatch** (start, stop, reset, elapsed) and the **countdown** tick sequence.

The model abstracts these parts of the environment:
- **Filesystem.** Maps from paths to bytes. The organizer's `Disk` also keeps the set of directories; the data directory needs none, since BACKUP_DIR's entries are a separate map.
- **ZIP archive.** The sequence of its members.
- **JSON document.** A value that may be missing or unparsable.
- **Clock.** A parameter.
- **Walk and listing orders.** Input sequences.

Each module lives in one file:
- `wrappers.dfy`: Option, Result and the error kinds.
- `text.dfy`: ASCII `lower`, substring search, Python's string order, decimal text, zero padding.
- `paths.dfy`: POSIX `join` and `basename`.
- `stamps.dfy`: `now_str` and the backup stamp.
- `persist.dfy`: `read_json` and `write_json`.
- `note_ledger.dfy`: pure note computations.
- `notes_manager.dfy`: the `NotesManager` class.
- `snapshots.dfy`: `utils.py`'s data directory, as the `DataDirectory` class.
- `backup_scope.dfy`: which directories a backup covers.
- `backup_manager.dfy`: the facade.
- `extensions.dfy`: the extension key.
- `file_organizer.dfy`: the `Disk` class and `organize`.
- `timer.dfy`: the `TimerStopwatch` class and the countdown.

Two behaviours of the code are worth knowing before reading the contracts:
- **Ids can be reissued.** `add_note` issues `max + 1` over the ids of the live notes (notes_manager.py:12). Deleting the newest note therefore lets its id be issued again. `NoteLedger.DeletingNewestReissuesItsId` proves this.
- **Backups omit the data directory's own files.** The docstring at utils.py:50 and the comment at utils.py:57 say that only the backups folder is excluded. The skip test at utils.py:58 also skips DATA_DIR itself and every top-level folder whose name is a prefix of "backups". The notes file and the calculator log are therefore never archived (see Findings).

## Model

| member | source | states |
|---|---|---|
| Persist.ReadJson | utils.py:27-32 | the parsed value when the file parses, the default when it is missing or does not parse |
| Persist.WriteJson | utils.py:34-36 | the file written holds exactly the value passed, as a parsed document |
| Persist.WriteThenRead | utils.py:27-36 | reading back what `write_json` wrote yields the written value, whatever the default |
| Stamps.NowStr | utils.py:24-25 | for a valid instant, `now_str` is 19 characters: '-' at 4 and 7, ' ' at 10, ':' at 13 and 16, digits elsewhere, and the six digit fields read back as the instant's year, month, day, hour, minute and second |
| Stamps.StampOrder | utils.py:52 | two valid instants' backup stamps compare as strings exactly as the instants compare in time |
| Stamps.StampInjective | utils.py:52 | two valid instants share a stamp only when they are the same second |
| Stamps.BackupStamp | utils.py:52 | the stamp is 15 characters with '_' at position 8 |
| Stamps.BackupStampFields | utils.py:52 | for a valid instant, the stamp's six digit fields read back as the instant's year, month, day, hour, minute and second |
| Text.IntStrRoundTrip | notes_manager.py:66 | the decimal text of an integer (how an id is written to csv) parses back to the integer |
| Text.ParseInt | timer.py:39 | `int()` of text succeeds exactly on an optional '+' or '-' followed by at least one digit; a '-' gives a value at most 0, otherwise at least 0 |
| NoteLedger.NextId | notes_manager.py:12 | the new id is 1 for an empty ledger, greater than every id (a missing id counts as 0), and one more than some note's id otherwise |
| NoteLedger.NextIdIsFresh | notes_manager.py:12 | no stored note carries the id `add_note` issues |
| NoteLedger.NewNote | notes_manager.py:13 | the new note has all five keys: the given id, title and content, and `now` as both created and modified |
| NoteLedger.ConsecutiveIds | notes_manager.py:10-16 | a ledger holding ids 1..n in order issues n + 1 next |
| NoteLedger.Matching | notes_manager.py:18-20 | a note is found iff it is stored and its lower-cased title or content contains the lower-cased query (a missing field reads as "") |
| NoteLedger.MatchingConcat | notes_manager.py:18-20 | search keeps stored order: the matches of a + b are those of a followed by those of b |
| NoteLedger.EmptyQueryMatchesAll | notes_manager.py:18-20 | an empty query returns every note |
| NoteLedger.QueryCaseIgnored | notes_manager.py:19-20 | a query and its lower-cased form find the same notes |
| NoteLedger.FirstWithId | notes_manager.py:22-26 | the index of the first note with the id, or None exactly when no note has it |
| NoteLedger.Revised | notes_manager.py:33-37 | a revised note keeps its id and created stamp, takes each passed field and keeps each one not passed, and gets `now` as modified |
| NoteLedger.Edited | notes_manager.py:28-39 | the edited collection has the same length, and equals the old one when no note has the id |
| NoteLedger.EditedChangesOnlyFirstMatch | notes_manager.py:28-39 | edit changes only the first note with the id: it keeps id and created, replaces only the passed fields, and sets modified |
| NoteLedger.Without | notes_manager.py:46 | a note survives deletion iff it is stored and does not carry the id; the length is unchanged iff no note carries it |
| NoteLedger.WithoutConcat | notes_manager.py:46 | deletion keeps the survivors in stored order |
| NoteLedger.DeleteTwiceIsNoop | notes_manager.py:44-50 | a second delete of the same id shrinks nothing, so it writes nothing and returns false |
| NoteLedger.WithoutAbsent | notes_manager.py:44-50 | deleting an id no note holds leaves the collection exactly as it was |
| NoteLedger.DeletingNewestReissuesItsId | notes_manager.py:12 | deleting the note just added restores the collection, and its id is issued again |
| NoteLedger.DeleteBelowMaxKeepsNextId | notes_manager.py:12 | deleting any id other than the maximum leaves the next id unchanged |
| NoteLedger.TxtWritten | notes_manager.py:55-59 | the txt loop finishes without a KeyError exactly when every note has id, title, created and content |
| NoteLedger.CsvWritten | notes_manager.py:60-66 | the csv loop finishes without a KeyError exactly when every note has all five keys |
| NoteLedger.TxtLayout | notes_manager.py:55-59 | the txt export completes iff every note has id, title, created and content; then the text is the notes' blocks in order |
| NoteLedger.CsvLayout | notes_manager.py:60-66 | the csv export starts with the header row and completes iff every note has all five keys; then it has one row per note, in order |
| NotesManager.WriteTxt | notes_manager.py:56-59 | the txt loop writes exactly what TxtLayout characterises: the blocks in order, stopping at the first missing key |
| NotesManager.WriteCsv | notes_manager.py:61-66 | the csv loop writes exactly what CsvLayout characterises: the header, then the rows in order, stopping at the first missing key |
| NotesManager.NotesManager.ListNotes | notes_manager.py:6-8 | the stored notes when the file parses, the empty sequence when it is missing or unreadable |
| NotesManager.NotesManager.AddNote | notes_manager.py:10-16 | appends a note with the next id and `now` as both stamps, returns it, keeps every earlier note; the id is fresh |
| NotesManager.NotesManager.Find | notes_manager.py:18-20 | exactly the stored notes that match the query, no more of them than are stored, kept in stored order (a subsequence of the stored list) |
| NoteLedger.MatchingKeepsOrder | notes_manager.py:20 | the comprehension keeps the matching notes in stored order: the result is a subsequence of the stored list |
| NotesManager.NotesManager.Get | notes_manager.py:22-26 | the first stored note with the id; None exactly when no note has it |
| NotesManager.NotesManager.Edit | notes_manager.py:28-42 | returns true iff a note has the id; then the file holds the edited collection; otherwise the file is untouched |
| NotesManager.NotesManager.Delete | notes_manager.py:44-50 | returns true iff a note has the id; then the file holds the survivors; otherwise the file is untouched |
| NotesManager.NotesManager.Export | notes_manager.py:52-71 | the format is compared lower-cased. txt and csv write their layouts and fail on a missing key; json writes the collection; any other format fails before writing |
| Snapshots.Ensured | utils.py:14-22 | ensure_dirs adds the notes file holding "[]" and an empty calculator log only when absent, and keeps every existing file |
| Snapshots.EnsuredIdempotent | utils.py:14-22 | running ensure_dirs twice equals running it once |
| Snapshots.DataDirIsDirPath | utils.py:9-10 | BACKUP_DIR is DATA_DIR + "/backups" |
| Snapshots.SkipsBackupDir | utils.py:56-59 | the backup folder itself is skipped by the walk |
| Snapshots.Skips | utils.py:58 | under either rule, a walked root equal to BACKUP_DIR is skipped (the full tests are BackupScope.AsWrittenSkipsIff and BackupScope.IntendedSkipsIff) |
| Snapshots.DirEntries | utils.py:60-63 | one member per file of a directory, in listing order, named by its path relative to DATA_DIR, with that file's contents |
| Snapshots.ArchiveDir | utils.py:60-63 | the inner loop of make_backup writes exactly DirEntries |
| Snapshots.Selected | utils.py:55-63 | every archive member names a file of the data directory and carries its contents |
| Snapshots.SelectedStep | utils.py:55-63 | each walk step appends its directory's members unless the skip test skips it |
| Snapshots.SelectedIff | utils.py:55-63 | an entry is archived iff it is the file of a walked, non-skipped directory, under its relative name, with its contents |
| Snapshots.BackupNameShape | utils.py:52-54 | the name is the prefix, '_', the 15-character stamp and ".zip" |
| Snapshots.BackupNameOrder | utils.py:52-54 | names of one prefix compare as their instants, differ for different seconds, and end in ".zip" |
| Snapshots.ZipNames | utils.py:68 | a name is kept iff it is listed and ends with ".zip" |
| Snapshots.InsertDesc | utils.py:69 | insertion keeps every element and adds one |
| Snapshots.InsertDescSorted | utils.py:69 | insertion into a descending list keeps it descending |
| Snapshots.SortDesc | utils.py:69 | sorting is a permutation |
| Snapshots.SortDescSorted | utils.py:69 | sorting yields a descending list |
| Snapshots.NewestFirst | utils.py:52-69 | among listed names of one prefix the later backup comes first |
| Snapshots.Extract | utils.py:77 | extractall writes a file for every member name and for nothing else |
| Snapshots.ExtractAgrees | utils.py:77 | when every member carries its file's current contents, extraction reproduces them |
| Snapshots.BackupRestoreRoundTrip | utils.py:55-78 | after a backup and a restore, every archived file has its backup-time contents and every other file is kept |
| Snapshots.RestoreOutcome | utils.py:72-78 | for a plain file name: false iff nothing exists at BACKUP_DIR/filename; true iff an archive is there; BadArchive otherwise, including "", "." and "..", which name a directory |
| Snapshots.ListedNamesRestore | utils.py:66-78 | every listed name restores without the "absent" answer |
| Snapshots.DataDirectory.EnsureDirs | utils.py:14-22 | the directory becomes Ensured of what it was |
| Snapshots.DataDirectory.MakeBackup | utils.py:49-64 | runs ensure_dirs, stores an archive of the members the as-written skip test selects under `<prefix>_<stamp>.zip`, and returns its path |
| Snapshots.DataDirectory.ListBackups | utils.py:66-70 | runs ensure_dirs, returns exactly the ".zip" entries of BACKUP_DIR, descending, as a permutation of the filtered listing |
| Snapshots.DataDirectory.RestoreBackup | utils.py:72-78 | outcome as RestoreOutcome; on success every member overwrites its file and other files stay; otherwise nothing changes |
| BackupScope.AsWrittenSkipsDataDir | utils.py:58 | as written, the walk's first directory, DATA_DIR itself, is skipped (its path is a prefix of BACKUP_DIR) |
| BackupScope.AsWrittenTopLevel | utils.py:58 | as written, a folder directly under DATA_DIR is skipped exactly when its name is a prefix of "backups" |
| BackupScope.AsWrittenDeeper | utils.py:58 | as written, a folder two or more levels below DATA_DIR is never skipped |
| BackupScope.AsWrittenSkipsIff | utils.py:58 | the test as written skips exactly DATA_DIR itself and the top-level folders whose name is a prefix of "backups" |
| BackupScope.IntendedSkipsIff | utils.py:50-58 | the intended test skips exactly BACKUP_DIR and what lies beneath it |
| BackupScope.AsWrittenMembersAreNested | utils.py:58-63 | as written, every archived name has a directory part |
| BackupScope.AsWrittenOmitsDataFiles | utils.py:58-63 | as written, neither notes.json nor calculator_log.csv is ever archived |
| BackupScope.AsWrittenBackupOfFreshDirIsEmpty | utils.py:49-64 | a fresh data directory (the two files and an empty backups folder) gives an empty archive |
| BackupScope.IntendedArchivesOutsideBackups | utils.py:50-63 | with the intended test, every walked file in a directory outside BACKUP_DIR is archived with its contents |
| BackupScope.IntendedRestoresWalkedFiles | utils.py:50-78 | with the intended test, backup then restore brings back every walked file in a directory outside BACKUP_DIR, with its contents |
| BackupScope.WalkedOutsideBackups | utils.py:55-58 | when the walk covers the data directory, a file whose path does not start with "backups/" was walked in a directory other than backups/ or one beneath it |
| BackupScope.IntendedArchivesEveryFile | utils.py:50-63 | with the intended test and a walk that covers the data directory, every file of the data directory not under "backups/" is archived with its contents |
| BackupScope.IntendedRestoresEveryFile | utils.py:50-78 | with the intended test and a walk that covers the data directory, backup then restore onto any later state brings back every file not under "backups/" with its contents at backup time |
| BackupManager.CreateBackup | backup_manager.py:5-6 | make_backup with the default prefix "pps_backup"; its path is returned unchanged |
| BackupManager.ListBackups | backup_manager.py:8-9 | exactly what list_backups returns |
| BackupManager.Restore | backup_manager.py:11-12 | restore_backup's outcome; false, with nothing changed, iff the name is absent from BACKUP_DIR |
| BackupManager.CreatedBackupRestores | backup_manager.py:5-12 | restoring a backup just created succeeds and brings each member back with its backup-time contents |
| Extensions.LastDot | file_organizer.py:19 | the last '.' of a name, or None exactly when there is none |
| Extensions.Extension | file_organizer.py:19 | splitext's suffix is "" or a dot followed by dot-free text, and is a suffix of the name |
| Extensions.ExtensionIff | file_organizer.py:19 | there is an extension iff some dot has a non-dot character before it |
| Extensions.StripDots | file_organizer.py:19 | strip('.') returns the run s[i..i+len(r)] with only dots before and after it and no dot at either end of its own (so exactly the leading and trailing dots go); it is empty exactly when s is all dots |
| Extensions.StripExtension | file_organizer.py:19 | lower-casing and stripping an extension leaves its lower-cased text after the dot |
| Extensions.KeyOfExtension | file_organizer.py:19 | `ext.lower().strip('.') or "no_ext"` is never empty, is "no_ext" for an all-dot extension, and otherwise has no dot at either end |
| Extensions.ExtKey | file_organizer.py:19 | the key is never empty |
| Extensions.ExtKeyIsStrippedLowerExtension | file_organizer.py:19 | the key is `suffix.lower().strip('.') or "no_ext"` |
| Extensions.ExtKeyNoSlash | file_organizer.py:19-24 | a name without separators gives a key without separators |
| Extensions.ExtKeyOfSuffix | file_organizer.py:19 | a name ending in a dot and a dot-free, non-empty extension, with something other than a dot before that dot, gets the lower-cased extension as its key |
| Extensions.ExtKeyUpperCase | file_organizer.py:19 | "a.TXT" gives "txt" |
| Extensions.ExtKeyDoubleExtension | file_organizer.py:19 | "a.tar.gz" gives "gz" |
| Extensions.ExtKeyNoDot | file_organizer.py:19 | "Makefile" gives "no_ext" |
| Extensions.ExtKeyHidden | file_organizer.py:19 | ".bashrc" gives "no_ext" |
| Extensions.ExtKeyTrailingDot | file_organizer.py:19 | "a." gives "no_ext" |
| FileOrganizer.KeptMembers | file_organizer.py:15-18 | a listed entry is kept iff it is not a directory |
| FileOrganizer.KeysInOrderSpec | file_organizer.py:20-23 | the mapping's keys are distinct and are exactly the keys of the kept files |
| FileOrganizer.GroupOfMembers | file_organizer.py:20 | a key's group holds exactly the kept files of that key |
| FileOrganizer.GroupMapKeys | file_organizer.py:19-20 | the keys the `setdefault` loop puts in the mapping are exactly the keys of the kept files |
| FileOrganizer.GroupMapPaths | file_organizer.py:19-20 | each key's list holds the full paths of exactly that key's files, in listing order |
| FileOrganizer.GroupByKey | file_organizer.py:14-20 | the first loop builds the key list in first-appearance order and the mapping of the `setdefault` loop over the kept files (whose keys and lists GroupMapKeys and GroupMapPaths characterise) |
| FileOrganizer.MoveGroup | file_organizer.py:24-30 | one group's actions are its moves into `<key>_files` under the base name; unless dry, the folder is created and the files moved in order |
| FileOrganizer.MoveGroups | file_organizer.py:22-30 | the second loop's actions are the groups' moves in key order; a dry run changes nothing |
| FileOrganizer.Organize | file_organizer.py:6-31 | error when the target is not a directory; otherwise the plan, whatever dry_run is; a dry run changes nothing; a real run applies the plan's moves and creates the folders |
| FileOrganizer.PlanSpec | file_organizer.py:15-27 | `organize`'s action list (Plan) has one action per non-directory entry, and an action is planned iff it moves such an entry into the folder of its key under the same name |
| FileOrganizer.PlanLength | file_organizer.py:22-27 | the plan has one action per kept file |
| FileOrganizer.PlanForMembers | file_organizer.py:23-27 | an action is planned iff it moves a file of one of the mapping's groups |
| FileOrganizer.MovePair | file_organizer.py:24-26 | a source is never a destination, and each end determines the file |
| FileOrganizer.KeptPlanSeparate | file_organizer.py:15-27 | the planned actions never collide |
| FileOrganizer.MoveFile | file_organizer.py:30 | moving a source that is not there changes nothing (what a real move does is FileOrganizer.MoveFileEffect) |
| FileOrganizer.MoveFileEffect | file_organizer.py:30 | a move takes the contents from source to destination and leaves every other file alone |
| FileOrganizer.AfterMovesFrame | file_organizer.py:25-30 | a path no action touches keeps its state |
| FileOrganizer.AfterMovesRelocates | file_organizer.py:25-30 | with non-colliding actions, every source ends empty and its contents are at its destination |
| FileOrganizer.OrganizeRelocates | file_organizer.py:15-31 | after a real run each listed file is gone from the target and its contents are in `<key>_files/<name>` |
| Timer.Started | timer.py:12-16 | start leaves the watch running with the elapsed total kept, and keeps a consistent watch consistent (that a running watch is unchanged is Timer.StartIdempotent) |
| Timer.Stopped | timer.py:18-22 | stop clears running and keeps the start time |
| Timer.StartIdempotent | timer.py:12-16 | a second start changes nothing; the start time is set only when stopped |
| Timer.StopIdempotent | timer.py:18-22 | a second stop changes nothing |
| Timer.StartKeepsReading | timer.py:12-34 | starting does not change the reading at that moment |
| Timer.StopFreezesReading | timer.py:18-34 | after stop the reading is fixed at its value when stopped |
| Timer.InitialReadsZero | timer.py:6-28 | a new or reset watch reads 0 |
| Timer.Reading | timer.py:30-34 | a stopped watch reads its accumulated total; a running one reads the total plus the time since its start |
| Timer.StepNeverDecreases | timer.py:12-34 | one call at a later time never lowers the reading |
| Timer.RunNeverDecreases | timer.py:12-34 | across calls with a non-decreasing clock, the last reading is at least the first |
| Timer.RunConcat | timer.py:12-34 | running calls a then b is running a, then b |
| Timer.ReadingsNeverDecrease | timer.py:12-34 | with a non-decreasing clock, the values elapsed reports across start, stop and elapsed calls never decrease |
| Timer.TimerStopwatch.constructor | timer.py:6-9 | not running, no start time, nothing elapsed |
| Timer.TimerStopwatch.Start | timer.py:12-16 | the state becomes Started of the old state |
| Timer.TimerStopwatch.Stop | timer.py:18-22 | the state becomes Stopped of the old state |
| Timer.TimerStopwatch.Reset | timer.py:24-28 | the state becomes the initial one |
| Timer.TimerStopwatch.Elapsed | timer.py:30-34 | the reading of the current state at `now` |
| Timer.Truncate | timer.py:39 | `int()` of a real truncates toward zero |
| Timer.ToInt | timer.py:38-41 | an int converts to itself, a bool to 1 or 0, a real to its truncation toward zero, text as Text.ParseInt reads it; anything else fails |
| Timer.RunCountdown | timer.py:36-52 | InvalidSeconds iff the conversion fails and a run iff it succeeds; the run ticks n, n-1, ..., 1, 0 (only 0 when n <= 0) with one sleep per positive tick, and ticks nothing without a callback |

## Left out

- GUI (main.py), calculator.py and unit_converter.py are not part of this model.
- ZIP encoding and deflate, JSON text and CSV quoting are abstracted. An archive is its member sequence, a JSON file is a parsed value or a failure, and a CSV file is its rows of fields.
- `zipfile.extractall`'s path sanitising is left out. Member names are the relative paths `make_backup` writes.
- `str.lower` is ASCII-only. Python lower-cases all of Unicode.
- Timestamps are whole seconds supplied by the caller; the clock itself is not modelled. Stopwatch times are unbounded reals, not floats.
- The lock, the daemon thread and `time.sleep` are not modelled. The countdown is the sequence of values its thread hands to `tick`, plus its number of sleeps.
- NotesManager.NotesManager.AddNote: takes one `now` for both stamps. The source calls `now_str()` twice, which can straddle a second boundary.
- NotesManager.NotesManager.Export: I/O errors while writing are not modelled, only the KeyError of a missing field.
- NotesManager.NotesManager.Export: a key holding JSON null is read as an absent key, so the model reports a missing field where the source completes: txt export writes "None" for a null id, title or created (notes_manager.py:58), and csv export writes an empty cell for any null (notes_manager.py:66).
- Snapshots.DataDirectory.MakeBackup: the walk is an input. Every walked file outside BACKUP_DIR is taken to be a file of the data directory. That the walk reaches every file, as `os.walk` over the whole tree does, is the predicate `Snapshots.Covers`, which the whole-directory lemmas of BackupScope take as a hypothesis; I/O errors during zipping are not modelled.
- Snapshots.DataDirectory.ListBackups: sorts by insertion into a new sequence rather than in place. The result is the same.
- Snapshots.RestoreOutcome: a file name containing '/' is not modelled and is answered as absent. In the source such a name can reach a sub-folder of BACKUP_DIR, leave it through ".." (so "../notes.json" finds the notes file and fails to open it as a zip), or be absolute (`os.path.join` then discards BACKUP_DIR and an archive elsewhere is restored). Only BACKUP_DIR's own entries are modelled.
- Snapshots.DataDirectory.RestoreBackup: inherits the same gap. A name containing '/' (a sub-folder path, one with "..", or an absolute path) leaves the files unchanged and returns the absent answer, whatever the source would find there.
- NotesManager.NotesManager.ListNotes: only a notes file holding a list of note objects is modelled, and a key holding JSON null is treated like an absent key. In the source these cases raise instead:
  - a truthy non-list document, such as `{"a": 1}`: `data or []` returns it and `append` fails;
  - an item that is not an object: `.get` fails;
  - `"id": null`: `max` and `+ 1` fail in `add_note`, where the model counts the id as 0;
  - `"title": null` or `"content": null`: `.lower()` fails in `find`, where the model reads "".
- FileOrganizer.Organize: `organize`'s default `dry_run=True` is an explicit parameter.
- FileOrganizer.MoveFile: a failing `os.makedirs` (a regular file where a folder should be) and a failing move are not modelled. A move of a missing source leaves the map as it was.
- Timer.ToInt: `int()` of text also accepts surrounding whitespace, '_' digit separators and non-ASCII decimal digits (such as Arabic-Indic digits); the model accepts only an optional sign followed by ASCII digits. Infinite and NaN floats are not modelled.

## Findings

| source | as written | input that shows it | evidently intended | confidence | as-written member | corrected member |
|---|---|---|---|---|---|---|
| utils.py:58 | a walked directory is skipped when its absolute path is a string prefix of BACKUP_DIR. That includes DATA_DIR itself and any top-level folder whose name is a prefix of "backups" ("back", "b"). | a fresh data directory holding notes.json and calculator_log.csv and an empty backups/: the archive is empty, and a restore brings back no notes | skip BACKUP_DIR and what lies beneath it (docstring at utils.py:50, comment at utils.py:57), so every other file is archived and restored | not executed | BackupScope.AsWrittenBackupOfFreshDirIsEmpty | BackupScope.IntendedRestoresEveryFile |

`make_backup` itself (`Snapshots.DataDirectory.MakeBackup`) keeps the test as written. The corrected test is the `Intended` case of `Snapshots.Skips`.
