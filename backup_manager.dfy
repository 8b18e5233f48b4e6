/**
 * `BackupManager` of backup_manager.py: a stateless facade whose three methods forward to
 * the snapshot functions of utils.py, with the same arguments and results.
 */
module BackupManager {
  import opened Wrappers
  import opened Text
  import opened Paths
  import opened Stamps
  import opened Snapshots

  /** `create_backup(prefix="pps_backup")`: `make_backup(prefix)`, its path returned unchanged. */
  method CreateBackup(dir: DataDirectory, walk: seq<WalkDir>, now: DateTime, prefix: string := DefaultPrefix)
    returns (path: string)
    requires Readable(walk, Ensured(dir.files))
    modifies dir`files, dir`backups
    ensures dir.files == Ensured(old(dir.files))
    ensures path == Join(BackupDir(dir.dataDir), BackupName(prefix, now))
    ensures dir.backups == old(dir.backups)[BackupName(prefix, now) := Archive(Selected(AsWritten, dir.dataDir, walk, dir.files))]
  {
    path := dir.MakeBackup(walk, now, prefix);
  }

  /** `list_backups()`: exactly what `utils.list_backups()` returns. */
  method ListBackups(dir: DataDirectory, listing: seq<string>) returns (names: seq<string>)
    requires forall n :: n in listing <==> n in dir.backups
    modifies dir`files
    ensures dir.files == Ensured(old(dir.files))
    ensures names == SortDesc(ZipNames(listing))
    ensures forall n :: n in names <==> n in dir.backups && EndsWith(n, ".zip")
  {
    names := dir.ListBackups(listing);
  }

  /**
   * `restore(filename)`: `restore_backup(filename)`. It answers false, leaving the data
   * directory as it was, exactly when nothing of that name is in BACKUP_DIR.
   */
  method Restore(dir: DataDirectory, filename: string) returns (r: Result<bool>)
    modifies dir`files
    ensures r == RestoreOutcome(dir.backups, filename)
    ensures r == Ok(false) <==> filename !in dir.backups && filename !in DirAliases
    ensures r == Ok(true) ==> dir.files == old(dir.files) + Extract(dir.backups[filename].entries)
    ensures r != Ok(true) ==> dir.files == old(dir.files)
  {
    r := dir.RestoreBackup(filename);
  }

  /**
   * A backup just created, then restored through the facade: the archive is found, and
   * each of its members comes back with the contents it had at backup time.
   */
  lemma CreatedBackupRestores(dataDir: string, backups: map<string, Stored>, walk: seq<WalkDir>,
                              files: map<string, Bytes>, current: map<string, Bytes>, now: DateTime, prefix: string)
    requires Readable(walk, files)
    ensures var name := BackupName(prefix, now);
      var stored := backups[name := Archive(Selected(AsWritten, dataDir, walk, files))];
      && RestoreOutcome(stored, name) == Ok(true)
      && (forall k :: k in Extract(stored[name].entries) ==> k in files && (current + Extract(stored[name].entries))[k] == files[k])
  {
    var name := BackupName(prefix, now);
    assert |name| >= 20;
    BackupRestoreRoundTrip(AsWritten, dataDir, walk, files, current);
  }
}
