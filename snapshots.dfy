/**
 * The data directory of utils.py and its zip snapshots: `ensure_dirs`, `make_backup`,
 * `list_backups` and `restore_backup`.
 *
 * The directory is a map from paths relative to DATA_DIR to file contents, holding every
 * regular file except those directly inside BACKUP_DIR; what sits directly inside
 * BACKUP_DIR is a second map, by name, each either a zip archive (its entries in the order
 * they were written) or something zipfile cannot open. `os.walk` and `os.listdir` orders
 * are inputs.
 */
module Snapshots {
  import opened Wrappers
  import opened Text
  import opened Paths
  import opened Stamps

  const NotesFileName := "notes.json"
  const CalcLogName := "calculator_log.csv"
  const BackupsName := "backups"
  const DefaultPrefix := "pps_backup"

  /** The bytes `json.dump([], f)` writes: "[]". */
  const EmptyJsonArray: Bytes := [0x5B, 0x5D]

  /** One archive member: its name inside the zip and its contents. */
  datatype Entry = Entry(name: string, data: Bytes)

  /** An entry directly inside BACKUP_DIR. */
  datatype Stored = Archive(entries: seq<Entry>) | Unreadable

  /** One step of `os.walk(DATA_DIR)`: the directory (components below DATA_DIR) and its files. */
  datatype WalkDir = WalkDir(rel: seq<string>, names: seq<string>)

  // ----- layout (utils.py:8-12) -------------------------------------------

  /** DATA_DIR = os.path.join(ROOT_DIR, "data"). */
  function DataDir(cwd: string): string {
    Join(cwd, "data")
  }

  /** BACKUP_DIR = os.path.join(DATA_DIR, "backups"). */
  function BackupDir(dataDir: string): string {
    Join(dataDir, BackupsName)
  }

  /** An absolute directory path that does not end in a separator, as DATA_DIR is. */
  predicate IsDirPath(p: string) {
    p != [] && p[|p| - 1] != '/'
  }

  lemma DataDirIsDirPath(cwd: string)
    ensures IsDirPath(DataDir(cwd))
    ensures BackupDir(DataDir(cwd)) == DataDir(cwd) + "/" + BackupsName
  {
  }

  /** The `root` os.walk reports for a directory: DATA_DIR joined with each component. */
  function AbsRoot(dataDir: string, rel: seq<string>): string {
    if rel == [] then dataDir else Join(AbsRoot(dataDir, rel[..|rel| - 1]), rel[|rel| - 1])
  }

  /** The directory part of an archive name: each component followed by a separator. */
  function RelDir(rel: seq<string>): string {
    if rel == [] then "" else rel[0] + "/" + RelDir(rel[1..])
  }

  /** `os.path.relpath(os.path.join(root, file), DATA_DIR)`: the member name of a walked file. */
  function ArcName(rel: seq<string>, name: string): string {
    RelDir(rel) + name
  }

  /** A walk as os.walk reports one: every component and every file name is a plain name. */
  predicate WellFormedWalk(walk: seq<WalkDir>) {
    forall d :: d in walk ==> (forall c :: c in d.rel ==> IsName(c)) && (forall n :: n in d.names ==> IsName(n))
  }

  // ----- ensure_dirs (utils.py:14-22) -------------------------------------

  /**
   * The data directory after `ensure_dirs`: "notes.json" holding "[]" and an empty
   * "calculator_log.csv" are created when absent; every existing file is untouched.
   */
  function Ensured(files: map<string, Bytes>): (r: map<string, Bytes>)
    ensures r.Keys == files.Keys + {NotesFileName, CalcLogName}
    ensures forall k :: k in files ==> r[k] == files[k]
    ensures NotesFileName !in files ==> r[NotesFileName] == EmptyJsonArray
    ensures CalcLogName !in files ==> r[CalcLogName] == []
  {
    var withNotes := if NotesFileName in files then files else files[NotesFileName := EmptyJsonArray];
    if CalcLogName in withNotes then withNotes else withNotes[CalcLogName := []]
  }

  /** Running `ensure_dirs` twice is the same as running it once. */
  lemma EnsuredIdempotent(files: map<string, Bytes>)
    ensures Ensured(Ensured(files)) == Ensured(files)
  {
  }

  // ----- the skip test (utils.py:56-59) ------------------------------------

  /**
   * How a walked directory is judged for skipping. AsWritten is the code:
   * `os.path.abspath(BACKUP_DIR).startswith(os.path.abspath(root))`, i.e. root is a string
   * prefix of BACKUP_DIR. Intended is what the comment and docstring describe: root is
   * BACKUP_DIR or lies beneath it.
   */
  datatype SkipRule = AsWritten | Intended

  predicate Skips(rule: SkipRule, backupDir: string, root: string)
    ensures root == backupDir ==> Skips(rule, backupDir, root)
  {
    match rule
    case AsWritten => root <= backupDir
    case Intended => root == backupDir || backupDir + "/" <= root
  }

  predicate SkipsDir(rule: SkipRule, dataDir: string, d: WalkDir) {
    Skips(rule, BackupDir(dataDir), AbsRoot(dataDir, d.rel))
  }

  /** Under either rule BACKUP_DIR itself is skipped. */
  lemma SkipsBackupDir(rule: SkipRule, dataDir: string, d: WalkDir)
    ensures d.rel == [BackupsName] ==> SkipsDir(rule, dataDir, d)
  {
    if d.rel == [BackupsName] {
      assert AbsRoot(dataDir, d.rel) == Join(AbsRoot(dataDir, []), BackupsName);
    }
  }

  /** Every walked file outside BACKUP_DIR itself is a file of the data directory. */
  predicate Readable(walk: seq<WalkDir>, files: map<string, Bytes>) {
    forall d :: d in walk && d.rel != [BackupsName] ==> forall n :: n in d.names ==> ArcName(d.rel, n) in files
  }

  /**
   * The walk reports every file of the data directory, as `os.walk` over the whole tree
   * does: each file is some walked directory's file.
   */
  predicate Covers(walk: seq<WalkDir>, files: map<string, Bytes>) {
    forall k :: k in files ==> exists d, n :: d in walk && n in d.names && ArcName(d.rel, n) == k
  }

  // ----- archive contents (utils.py:55-63) --------------------------------

  /** The members written for one directory: one per file, in listing order. */
  function DirEntries(rel: seq<string>, names: seq<string>, files: map<string, Bytes>): (es: seq<Entry>)
    requires forall n :: n in names ==> ArcName(rel, n) in files
    ensures |es| == |names|
    ensures forall i :: 0 <= i < |names| ==> es[i] == Entry(ArcName(rel, names[i]), files[ArcName(rel, names[i])])
  {
    if names == [] then []
    else DirEntries(rel, names[..|names| - 1], files) + [Entry(ArcName(rel, names[|names| - 1]), files[ArcName(rel, names[|names| - 1])])]
  }

  /** The inner loop of `make_backup`: one member per file of a directory, in listing order. */
  method ArchiveDir(rel: seq<string>, names: seq<string>, files: map<string, Bytes>) returns (chunk: seq<Entry>)
    requires forall n :: n in names ==> ArcName(rel, n) in files
    ensures chunk == DirEntries(rel, names, files)
  {
    chunk := [];
    var j := 0;
    while j < |names|
      invariant 0 <= j <= |names|
      invariant chunk == DirEntries(rel, names[..j], files)
    {
      var arc := ArcName(rel, names[j]);
      assert names[..j + 1] == names[..j] + [names[j]];
      chunk := chunk + [Entry(arc, files[arc])];
      j := j + 1;
    }
    assert names[..j] == names;
  }

  /** The members `make_backup` writes, walk step by walk step, skipping what the rule skips. */
  function Selected(rule: SkipRule, dataDir: string, walk: seq<WalkDir>, files: map<string, Bytes>): (es: seq<Entry>)
    requires Readable(walk, files)
    ensures forall e :: e in es ==> e.name in files && e.data == files[e.name]
  {
    if walk == [] then []
    else
      var d := walk[|walk| - 1];
      var before := Selected(rule, dataDir, walk[..|walk| - 1], files);
      if SkipsDir(rule, dataDir, d) then before
      else
        SkipsBackupDir(rule, dataDir, d);
        before + DirEntries(d.rel, d.names, files)
  }

  /** One more walk step: its files are appended unless the rule skips its directory. */
  lemma SelectedStep(rule: SkipRule, dataDir: string, walk: seq<WalkDir>, files: map<string, Bytes>, i: nat)
    requires Readable(walk, files) && i < |walk|
    ensures Readable(walk[..i], files) && Readable(walk[..i + 1], files)
    ensures !SkipsDir(rule, dataDir, walk[i]) ==> forall n :: n in walk[i].names ==> ArcName(walk[i].rel, n) in files
    ensures SkipsDir(rule, dataDir, walk[i]) ==>
      Selected(rule, dataDir, walk[..i + 1], files) == Selected(rule, dataDir, walk[..i], files)
    ensures !SkipsDir(rule, dataDir, walk[i]) ==>
      Selected(rule, dataDir, walk[..i + 1], files) == Selected(rule, dataDir, walk[..i], files) + DirEntries(walk[i].rel, walk[i].names, files)
  {
    assert forall d :: d in walk[..i + 1] ==> d in walk;
    assert walk[..i + 1][..i] == walk[..i];
    SkipsBackupDir(rule, dataDir, walk[i]);
  }

  /**
   * Archive completeness and exactness: an entry is in the archive iff it is the file of a
   * walked directory that the rule does not skip, stored under its name relative to
   * DATA_DIR with that file's contents.
   */
  lemma {:induction false} SelectedIff(rule: SkipRule, dataDir: string, walk: seq<WalkDir>, files: map<string, Bytes>, e: Entry)
    requires Readable(walk, files)
    ensures e in Selected(rule, dataDir, walk, files) <==>
      exists d, n :: d in walk && n in d.names && !SkipsDir(rule, dataDir, d)
                     && e.name == ArcName(d.rel, n) && e.name in files && e.data == files[e.name]
  {
    if walk != [] {
      var init := walk[..|walk| - 1];
      var d := walk[|walk| - 1];
      assert walk == init + [d];
      SelectedIff(rule, dataDir, init, files, e);
      if !SkipsDir(rule, dataDir, d) {
        SkipsBackupDir(rule, dataDir, d);
        var es := DirEntries(d.rel, d.names, files);
        if e in es {
          var i :| 0 <= i < |es| && es[i] == e;
          assert d.names[i] in d.names;
        }
        if exists n :: n in d.names && e.name == ArcName(d.rel, n) && e.name in files && e.data == files[e.name] {
          var n :| n in d.names && e.name == ArcName(d.rel, n) && e.name in files && e.data == files[e.name];
          var i :| 0 <= i < |d.names| && d.names[i] == n;
          assert es[i] == e;
        }
      }
    }
  }

  // ----- backup names (utils.py:52-54) ------------------------------------

  /** "<prefix>_<YYYYMMDD_HHMMSS>.zip" */
  function BackupName(prefix: string, now: DateTime): string {
    prefix + "_" + BackupStamp(now) + ".zip"
  }

  /** The name is the prefix, '_', the 15-character stamp and ".zip". */
  lemma BackupNameShape(prefix: string, now: DateTime)
    ensures var name := BackupName(prefix, now);
      |name| == |prefix| + 20 && name[..|prefix|] == prefix && name[|prefix|] == '_'
      && name[|prefix| + 1..|prefix| + 16] == BackupStamp(now) && EndsWith(name, ".zip")
  {
    var name := BackupName(prefix, now);
    assert name[|prefix| + 16..] == ".zip";
  }

  /**
   * Names of one prefix sort as their instants: a later backup's name is greater, two
   * different seconds never share a name, and every name is picked up by `list_backups`.
   */
  lemma BackupNameOrder(prefix: string, t1: DateTime, t2: DateTime)
    requires t1.Valid() && t2.Valid()
    ensures LexLess(BackupName(prefix, t1), BackupName(prefix, t2)) <==> Before(t1, t2)
    ensures BackupName(prefix, t1) == BackupName(prefix, t2) <==> t1 == t2
    ensures EndsWith(BackupName(prefix, t1), ".zip")
  {
    var p := prefix + "_";
    var s1, s2 := BackupStamp(t1), BackupStamp(t2);
    assert BackupName(prefix, t1) == p + (s1 + ".zip");
    assert BackupName(prefix, t2) == p + (s2 + ".zip");
    LexIrreflexive(p);
    LexConcat(p, s1 + ".zip", p, s2 + ".zip");
    LexConcat(s1, ".zip", s2, ".zip");
    LexIrreflexive(".zip");
    StampOrder(t1, t2);
    StampInjective(t1, t2);
    if p + (s1 + ".zip") == p + (s2 + ".zip") {
      assert (p + (s1 + ".zip"))[|p|..|p| + 15] == s1;
      assert (p + (s2 + ".zip"))[|p|..|p| + 15] == s2;
    }
  }

  // ----- listing (utils.py:66-70) -----------------------------------------

  /** `[f for f in listing if f.endswith(".zip")]`, in listing order. */
  function ZipNames(listing: seq<string>): (r: seq<string>)
    ensures forall n :: n in r <==> n in listing && EndsWith(n, ".zip")
  {
    if listing == [] then []
    else (if EndsWith(listing[0], ".zip") then [listing[0]] else []) + ZipNames(listing[1..])
  }

  /** Non-increasing in Python's string order: what `sort(reverse=True)` produces. */
  predicate Descending(s: seq<string>) {
    forall i, j :: 0 <= i < j < |s| ==> !LexLess(s[i], s[j])
  }

  lemma NotLessTransitive(a: string, b: string, c: string)
    requires !LexLess(a, b) && !LexLess(b, c)
    ensures !LexLess(a, c)
  {
    LexTrichotomy(a, b);
    LexTrichotomy(b, c);
    LexAsymmetric(a, c);
    if LexLess(b, a) && LexLess(c, b) { LexTransitive(c, b, a); }
  }

  /** Places x in a descending list before the first element it is not below. */
  function InsertDesc(x: string, s: seq<string>): (r: seq<string>)
    ensures multiset(r) == multiset(s) + multiset{x}
  {
    if s == [] || !LexLess(x, s[0]) then [x] + s
    else
      assert s == [s[0]] + s[1..];
      [s[0]] + InsertDesc(x, s[1..])
  }

  lemma {:induction false} InsertDescSorted(x: string, s: seq<string>)
    requires Descending(s)
    ensures Descending(InsertDesc(x, s))
  {
    var r := InsertDesc(x, s);
    if s == [] {
    } else if !LexLess(x, s[0]) {
      forall i, j | 0 <= i < j < |r| ensures !LexLess(r[i], r[j]) {
        if i == 0 && j > 1 { NotLessTransitive(x, s[0], s[j - 1]); }
      }
    } else {
      InsertDescSorted(x, s[1..]);
      var t := InsertDesc(x, s[1..]);
      forall k | 0 <= k < |t| ensures !LexLess(s[0], t[k]) {
        assert t[k] in multiset(t);
        if t[k] != x {
          assert t[k] in multiset(s[1..]);
          var m :| 0 <= m < |s[1..]| && s[1..][m] == t[k];
          assert s[m + 1] == t[k];
        } else {
          LexAsymmetric(x, s[0]);
        }
      }
    }
  }

  /** `files.sort(reverse=True)`. */
  function SortDesc(s: seq<string>): (r: seq<string>)
    ensures multiset(r) == multiset(s)
  {
    if s == [] then []
    else
      assert s == [s[0]] + s[1..];
      InsertDesc(s[0], SortDesc(s[1..]))
  }

  lemma {:induction false} SortDescSorted(s: seq<string>)
    ensures Descending(SortDesc(s))
  {
    if s != [] {
      SortDescSorted(s[1..]);
      InsertDescSorted(s[0], SortDesc(s[1..]));
    }
  }

  /**
   * `list_backups` lists newest first: among listed names of one prefix, the later backup
   * comes before the earlier one.
   */
  lemma {:induction false} NewestFirst(names: seq<string>, prefix: string, t1: DateTime, t2: DateTime, i: nat, j: nat)
    requires Descending(names) && t1.Valid() && t2.Valid() && Before(t1, t2)
    requires i < |names| && j < |names|
    requires names[i] == BackupName(prefix, t1) && names[j] == BackupName(prefix, t2)
    ensures j < i
  {
    BackupNameOrder(prefix, t1, t2);
    LexIrreflexive(names[i]);
  }

  // ----- restore (utils.py:72-78) -----------------------------------------

  /** The files `extractall` writes, by member name; a later member of the same name wins. */
  function Extract(entries: seq<Entry>): (m: map<string, Bytes>)
    ensures forall k :: k in m <==> exists e :: e in entries && e.name == k
  {
    if entries == [] then map[]
    else
      var init := entries[..|entries| - 1];
      var last := entries[|entries| - 1];
      assert entries == init + [last];
      Extract(init)[last.name := last.data]
  }

  /** When every member carries the current contents of its file, extraction reproduces them. */
  lemma {:induction false} ExtractAgrees(entries: seq<Entry>, files: map<string, Bytes>)
    requires forall e :: e in entries ==> e.name in files && e.data == files[e.name]
    ensures forall k :: k in Extract(entries) ==> k in files && Extract(entries)[k] == files[k]
  {
    if entries != [] {
      var init := entries[..|entries| - 1];
      assert forall e :: e in init ==> e in entries;
      ExtractAgrees(init, files);
    }
  }

  /**
   * Backup then restore: the restored directory holds every archived file with the
   * contents it had at backup time, and keeps every other file it had.
   */
  lemma BackupRestoreRoundTrip(rule: SkipRule, dataDir: string, walk: seq<WalkDir>, files: map<string, Bytes>, current: map<string, Bytes>)
    requires Readable(walk, files)
    ensures var archived := Extract(Selected(rule, dataDir, walk, files));
      var restored := current + archived;
      && restored.Keys == current.Keys + archived.Keys
      && (forall k :: k in archived ==> k in files && restored[k] == files[k])
      && (forall k :: k in current && k !in archived ==> restored[k] == current[k])
  {
    var es := Selected(rule, dataDir, walk, files);
    forall e | e in es ensures e.name in files && e.data == files[e.name] {
      SelectedIff(rule, dataDir, walk, files, e);
    }
    ExtractAgrees(es, files);
  }

  /** Names that join onto BACKUP_DIR to give a directory, which exists but is no zip file. */
  const DirAliases: set<string> := {"", ".", ".."}

  /** What `os.listdir(BACKUP_DIR)` can report: plain names, never "." or "..". */
  predicate Listable(backups: map<string, Stored>) {
    forall n :: n in backups ==> IsName(n) && n !in DirAliases
  }

  /**
   * The result of `restore_backup(filename)`: false exactly when nothing exists at
   * BACKUP_DIR/filename, true when an archive is there, BadArchive when what is there
   * cannot be opened as a zip (a damaged file, or a directory).
   */
  function RestoreOutcome(backups: map<string, Stored>, filename: string): (r: Result<bool>)
    ensures r == Ok(false) <==> filename !in backups && filename !in DirAliases
    ensures r == Ok(true) <==> filename in backups && filename !in DirAliases && backups[filename].Archive?
    ensures r.Ok? || r == Err(BadArchive)
  {
    if filename in DirAliases then Err(BadArchive)
    else if filename !in backups then Ok(false)
    else if backups[filename].Archive? then Ok(true)
    else Err(BadArchive)
  }

  /** Every name `list_backups` returns restores without the "absent" answer. */
  lemma ListedNamesRestore(backups: map<string, Stored>, listing: seq<string>, n: string)
    requires Listable(backups)
    requires forall m :: m in listing <==> m in backups
    requires n in SortDesc(ZipNames(listing))
    ensures RestoreOutcome(backups, n) != Ok(false)
  {
    assert n in multiset(SortDesc(ZipNames(listing)));
    assert n in ZipNames(listing);
  }

  // ----- the data directory -----------------------------------------------

  class DataDirectory {
    /** DATA_DIR. */
    const dataDir: string
    /** Every regular file under DATA_DIR except those directly in BACKUP_DIR, by relative path. */
    var files: map<string, Bytes>
    /** What sits directly in BACKUP_DIR, by name. */
    var backups: map<string, Stored>

    constructor (cwd: string, files: map<string, Bytes>, backups: map<string, Stored>)
      ensures dataDir == DataDir(cwd) && this.files == files && this.backups == backups
    {
      dataDir := DataDir(cwd);
      this.files := files;
      this.backups := backups;
    }

    /** `ensure_dirs()`: creates the two data files when absent, touching nothing else. */
    method EnsureDirs()
      modifies this`files
      ensures files == Ensured(old(files))
    {
      if NotesFileName !in files {
        files := files[NotesFileName := EmptyJsonArray];
      }
      if CalcLogName !in files {
        files := files[CalcLogName := []];
      }
    }

    /**
     * `make_backup(prefix)`: after `ensure_dirs`, writes BACKUP_DIR/<prefix>_<stamp>.zip
     * holding, in walk order, every file of every walked directory that the skip test as
     * written lets through, and returns that path. A backup of the same name is replaced.
     */
    method MakeBackup(walk: seq<WalkDir>, now: DateTime, prefix: string := DefaultPrefix) returns (path: string)
      requires Readable(walk, Ensured(files))
      modifies this`files, this`backups
      ensures files == Ensured(old(files))
      ensures path == Join(BackupDir(dataDir), BackupName(prefix, now))
      ensures backups == old(backups)[BackupName(prefix, now) := Archive(Selected(AsWritten, dataDir, walk, files))]
    {
      EnsureDirs();
      var fs := files;
      var name := BackupName(prefix, now);
      path := Join(BackupDir(dataDir), name);
      var entries: seq<Entry> := [];
      var i := 0;
      while i < |walk|
        invariant 0 <= i <= |walk|
        invariant files == fs && backups == old(backups)
        invariant entries == Selected(AsWritten, dataDir, walk[..i], fs)
      {
        var d := walk[i];
        SelectedStep(AsWritten, dataDir, walk, fs, i);
        if !Skips(AsWritten, BackupDir(dataDir), AbsRoot(dataDir, d.rel)) {
          var chunk := ArchiveDir(d.rel, d.names, fs);
          entries := entries + chunk;
        }
        i := i + 1;
      }
      assert walk[..i] == walk;
      backups := backups[name := Archive(entries)];
    }

    /**
     * `list_backups()`: after `ensure_dirs`, exactly the ".zip" names among the entries
     * of BACKUP_DIR (listed in the given `os.listdir` order), sorted in descending order.
     */
    method ListBackups(listing: seq<string>) returns (names: seq<string>)
      requires forall n :: n in listing <==> n in backups
      modifies this`files
      ensures files == Ensured(old(files))
      ensures names == SortDesc(ZipNames(listing))
      ensures Descending(names)
      ensures multiset(names) == multiset(ZipNames(listing))
      ensures forall n :: n in names <==> n in backups && EndsWith(n, ".zip")
    {
      EnsureDirs();
      var zips := ZipNames(listing);
      names := SortDesc(zips);
      SortDescSorted(zips);
      forall n ensures n in names <==> n in zips {
        assert n in names <==> n in multiset(names);
        assert n in zips <==> n in multiset(zips);
      }
    }

    /**
     * `restore_backup(filename)`: the outcome is RestoreOutcome's; on success every archive
     * member overwrites the file of the same relative path and files absent from the
     * archive stay. Archives are never changed.
     */
    method RestoreBackup(filename: string) returns (r: Result<bool>)
      modifies this`files
      ensures r == RestoreOutcome(backups, filename)
      ensures r == Ok(true) ==> files == old(files) + Extract(backups[filename].entries)
      ensures r != Ok(true) ==> files == old(files)
    {
      if filename in DirAliases {
        return Err(BadArchive);
      }
      if filename !in backups {
        return Ok(false);
      }
      match backups[filename]
      case Unreadable =>
        r := Err(BadArchive);
      case Archive(entries) =>
        files := files + Extract(entries);
        r := Ok(true);
    }
  }
}
