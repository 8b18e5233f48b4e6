/**
 * Which walked directories `make_backup` archives. The skip test of utils.py:58 asks
 * whether the walked root is a string prefix of BACKUP_DIR; these lemmas say exactly which
 * directories that is, and compare it with the rule the comment at utils.py:57 and the
 * docstring at utils.py:50 describe (skip BACKUP_DIR and what lies beneath it).
 */
module BackupScope {
  import opened Text
  import opened Paths
  import opened Snapshots

  /** Every component is a plain name, as os.walk reports them. */
  predicate Names(rel: seq<string>) {
    forall c :: c in rel ==> IsName(c)
  }

  lemma {:induction false} RelDirSnoc(rel: seq<string>, c: string)
    ensures RelDir(rel + [c]) == RelDir(rel) + c + "/"
  {
    if rel == [] {
      assert [c][1..] == [];
    } else {
      assert (rel + [c])[1..] == rel[1..] + [c];
      RelDirSnoc(rel[1..], c);
    }
  }

  /** A walked root ends in its last component; followed by a separator it is DATA_DIR/ then the archive directory part. */
  lemma {:induction false} AbsRootShape(base: string, rel: seq<string>)
    requires IsDirPath(base) && Names(rel)
    ensures IsDirPath(AbsRoot(base, rel))
    ensures AbsRoot(base, rel) + "/" == base + "/" + RelDir(rel)
  {
    if rel != [] {
      var init := rel[..|rel| - 1];
      var c := rel[|rel| - 1];
      assert rel == init + [c];
      assert Names(init) by { forall x | x in init ensures IsName(x) { assert x in rel; } }
      AbsRootShape(base, init);
      assert c in rel;
      assert c[0] != '/' by { assert c[0] in c; }
      assert c[|c| - 1] != '/' by { assert c[|c| - 1] in c; }
      var p := AbsRoot(base, init);
      assert AbsRoot(base, rel) == p + "/" + c;
      RelDirSnoc(init, c);
      calc {
        AbsRoot(base, rel) + "/";
        (p + "/") + c + "/";
        base + "/" + RelDir(init) + c + "/";
        base + "/" + RelDir(rel);
      }
    }
  }

  /** A directory part starts with "t/" exactly when its first component is t. */
  lemma SegmentPrefix(t: string, c: string, rest: string)
    requires IsName(t) && IsName(c)
    ensures t + "/" <= c + "/" + rest <==> c == t
  {
    var s := c + "/" + rest;
    if |c| < |t| {
      assert s[|c|] == '/';
      assert (t + "/")[|c|] == t[|c|];
      assert t[|c|] in t;
    } else if |c| > |t| {
      assert (t + "/")[|t|] == '/';
      assert s[|t|] == c[|t|];
      assert c[|t|] in c;
    } else {
      assert (t + "/")[..|t|] == t;
      assert s[..|t|] == c;
    }
  }

  lemma FirstSegment(t: string, rel: seq<string>)
    requires IsName(t) && Names(rel)
    ensures t + "/" <= RelDir(rel) <==> |rel| >= 1 && rel[0] == t
  {
    if rel != [] {
      assert rel[0] in rel;
      SegmentPrefix(t, rel[0], RelDir(rel[1..]));
    }
  }

  /** The intended rule skips exactly BACKUP_DIR and the directories beneath it. */
  lemma IntendedSkipsIff(base: string, rel: seq<string>)
    requires IsDirPath(base) && Names(rel)
    ensures Skips(Intended, BackupDir(base), AbsRoot(base, rel)) <==> |rel| >= 1 && rel[0] == BackupsName
  {
    var root := AbsRoot(base, rel);
    var r := RelDir(rel);
    var b := BackupDir(base);
    AbsRootShape(base, rel);
    FirstSegment(BackupsName, rel);
    assert b + "/" == base + "/" + (BackupsName + "/");
    var k := |base| + 1;
    assert (root + "/")[k..] == r;
    assert (b + "/")[k..] == BackupsName + "/";
    if root == b {
      assert r == BackupsName + "/";
    } else if b + "/" <= root {
      assert (root + "/")[..|b| + 1] == b + "/";
      assert r[..|BackupsName| + 1] == (root + "/")[k..|b| + 1];
    }
    if BackupsName + "/" <= r {
      assert (root + "/")[..|b| + 1] == b + "/";
      if |r| == |BackupsName| + 1 {
        assert root + "/" == b + "/";
        assert root == (root + "/")[..|root|];
        assert b == (b + "/")[..|b|];
      } else {
        assert root[..|b| + 1] == (root + "/")[..|b| + 1];
      }
    }
  }

  /** As written, DATA_DIR itself is skipped: it is a prefix of BACKUP_DIR. */
  lemma AsWrittenSkipsDataDir(base: string)
    requires IsDirPath(base)
    ensures Skips(AsWritten, BackupDir(base), AbsRoot(base, []))
  {
    var b := BackupDir(base);
    assert b == base + "/" + BackupsName;
    assert b[..|base|] == base;
  }

  /** As written, a top-level directory is skipped exactly when its name is a prefix of "backups". */
  lemma AsWrittenTopLevel(base: string, c: string)
    requires IsDirPath(base) && IsName(c)
    ensures Skips(AsWritten, BackupDir(base), AbsRoot(base, [c])) <==> c <= BackupsName
  {
    var b := BackupDir(base);
    var p := base + "/";
    assert c[0] != '/' by { assert c[0] in c; }
    assert AbsRoot(base, [c]) == Join(AbsRoot(base, []), c);
    var root := AbsRoot(base, [c]);
    assert root == p + c && b == p + BackupsName;
    if root <= b {
      assert b[..|root|] == root;
      assert c == b[|p|..|root|] == BackupsName[..|c|];
    }
    if c <= BackupsName {
      assert b[..|root|] == p + BackupsName[..|c|];
    }
  }

  /** A root two or more levels below DATA_DIR has a separator right after its first component. */
  lemma SlashAfterFirst(base: string, rel: seq<string>)
    requires IsDirPath(base) && Names(rel) && |rel| >= 2
    ensures var k := |base| + 1 + |rel[0]|;
      k < |AbsRoot(base, rel)| && AbsRoot(base, rel)[k] == '/'
  {
    var root := AbsRoot(base, rel);
    AbsRootShape(base, rel);
    var c0 := rel[0];
    var c1 := rel[1];
    assert c0 in rel && c1 in rel;
    assert rel[1..][0] == c1;
    var tail := RelDir(rel[1..]);
    assert tail == c1 + "/" + RelDir(rel[2..]);
    var k := |base| + 1 + |c0|;
    assert root + "/" == base + "/" + c0 + "/" + tail;
    assert (root + "/")[k] == '/';
  }

  /** As written, no directory two or more levels below DATA_DIR is skipped. */
  lemma AsWrittenDeeper(base: string, rel: seq<string>)
    requires IsDirPath(base) && Names(rel) && |rel| >= 2
    ensures !Skips(AsWritten, BackupDir(base), AbsRoot(base, rel))
  {
    var root := AbsRoot(base, rel);
    var b := BackupDir(base);
    var k := |base| + 1 + |rel[0]|;
    SlashAfterFirst(base, rel);
    assert b == (base + "/") + BackupsName;
    assert k >= |b| || b[k] != '/' by {
      if k < |b| {
        assert b[k] == BackupsName[k - |base| - 1];
      }
    }
  }

  /**
   * The rule as written skips DATA_DIR itself and every top-level directory whose name is
   * a prefix of "backups" ("backups", but also "back", "b", ...), and nothing deeper.
   */
  lemma AsWrittenSkipsIff(base: string, rel: seq<string>)
    requires IsDirPath(base) && Names(rel)
    ensures Skips(AsWritten, BackupDir(base), AbsRoot(base, rel)) <==>
      rel == [] || (|rel| == 1 && rel[0] <= BackupsName)
  {
    if rel == [] {
      AsWrittenSkipsDataDir(base);
    } else if |rel| == 1 {
      assert rel == [rel[0]] && rel[0] in rel;
      AsWrittenTopLevel(base, rel[0]);
    } else {
      AsWrittenDeeper(base, rel);
    }
  }

  /** Under the rule as written, only directories below DATA_DIR contribute: every member name has a separator. */
  lemma {:induction false} AsWrittenMembersAreNested(dataDir: string, walk: seq<WalkDir>, files: map<string, Bytes>, e: Entry)
    requires IsDirPath(dataDir) && WellFormedWalk(walk) && Readable(walk, files)
    requires e in Selected(AsWritten, dataDir, walk, files)
    ensures '/' in e.name
  {
    SelectedIff(AsWritten, dataDir, walk, files, e);
    var d, n :| d in walk && n in d.names && !SkipsDir(AsWritten, dataDir, d) && e.name == ArcName(d.rel, n);
    assert Names(d.rel);
    AsWrittenSkipsIff(dataDir, d.rel);
    NestedArcName(d.rel, n);
  }

  lemma NestedArcName(rel: seq<string>, n: string)
    requires rel != []
    ensures '/' in ArcName(rel, n)
  {
    var x := ArcName(rel, n);
    assert x == rel[0] + "/" + (RelDir(rel[1..]) + n);
    assert x[|rel[0]|] == '/';
  }

  /**
   * The notes file and the calculator log, which live directly in DATA_DIR, are never in a
   * backup as written, whatever the walk reports.
   */
  lemma AsWrittenOmitsDataFiles(dataDir: string, walk: seq<WalkDir>, files: map<string, Bytes>)
    requires IsDirPath(dataDir) && WellFormedWalk(walk) && Readable(walk, files)
    ensures forall e :: e in Selected(AsWritten, dataDir, walk, files) ==> e.name != NotesFileName && e.name != CalcLogName
  {
    DataFileNamesFlat();
    forall e | e in Selected(AsWritten, dataDir, walk, files)
      ensures e.name != NotesFileName && e.name != CalcLogName
    {
      AsWrittenMembersAreNested(dataDir, walk, files, e);
    }
  }

  /** The two data files' names have no separator. */
  lemma DataFileNamesFlat()
    ensures '/' !in NotesFileName && '/' !in CalcLogName
  {
  }

  /**
   * A concrete walk of a fresh data directory: DATA_DIR holding the two data files and an
   * empty BACKUP_DIR. The backup as written is empty.
   */
  lemma AsWrittenBackupOfFreshDirIsEmpty(cwd: string, files: map<string, Bytes>)
    requires NotesFileName in files && CalcLogName in files
    ensures var walk := [WalkDir([], [NotesFileName, CalcLogName]), WalkDir([BackupsName], [])];
      Readable(walk, files) && Selected(AsWritten, DataDir(cwd), walk, files) == []
  {
    var walk := [WalkDir([], [NotesFileName, CalcLogName]), WalkDir([BackupsName], [])];
    var dataDir := DataDir(cwd);
    DataDirIsDirPath(cwd);
    assert ArcName([], NotesFileName) == NotesFileName && ArcName([], CalcLogName) == CalcLogName;
    assert Readable(walk, files);
    assert walk[..|walk| - 1] == [walk[0]] && [walk[0]][..0] == [];
    AsWrittenSkipsIff(dataDir, []);
    assert SkipsDir(AsWritten, dataDir, walk[0]);
    SkipsBackupDir(AsWritten, dataDir, walk[1]);
    assert Selected(AsWritten, dataDir, [walk[0]], files) == [];
  }

  /**
   * The intended rule archives every file of every directory outside BACKUP_DIR, the two
   * data files among them.
   */
  lemma IntendedArchivesOutsideBackups(dataDir: string, walk: seq<WalkDir>, files: map<string, Bytes>, d: WalkDir, n: string)
    requires IsDirPath(dataDir) && WellFormedWalk(walk) && Readable(walk, files)
    requires d in walk && n in d.names && (d.rel == [] || d.rel[0] != BackupsName)
    ensures ArcName(d.rel, n) in files
    ensures Entry(ArcName(d.rel, n), files[ArcName(d.rel, n)]) in Selected(Intended, dataDir, walk, files)
  {
    assert Names(d.rel);
    IntendedSkipsIff(dataDir, d.rel);
    SelectedIff(Intended, dataDir, walk, files, Entry(ArcName(d.rel, n), files[ArcName(d.rel, n)]));
  }

  /**
   * Backup under the intended rule, then restore onto any later state: every walked file
   * outside BACKUP_DIR, the notes file included, is back with its contents at backup time.
   */
  lemma IntendedRestoresWalkedFiles(dataDir: string, walk: seq<WalkDir>, files: map<string, Bytes>,
                                    current: map<string, Bytes>, d: WalkDir, n: string)
    requires IsDirPath(dataDir) && WellFormedWalk(walk) && Readable(walk, files)
    requires d in walk && n in d.names && (d.rel == [] || d.rel[0] != BackupsName)
    ensures var k := ArcName(d.rel, n);
      k in files && k in current + Extract(Selected(Intended, dataDir, walk, files))
      && (current + Extract(Selected(Intended, dataDir, walk, files)))[k] == files[k]
  {
    var k := ArcName(d.rel, n);
    IntendedArchivesOutsideBackups(dataDir, walk, files, d, n);
    var es := Selected(Intended, dataDir, walk, files);
    assert k in Extract(es) by { assert Entry(k, files[k]) in es; }
    BackupRestoreRoundTrip(Intended, dataDir, walk, files, current);
  }

  /** A walked file outside "backups/" lies in a directory the intended rule keeps. */
  lemma WalkedOutsideBackups(walk: seq<WalkDir>, files: map<string, Bytes>, k: string)
    returns (d: WalkDir, n: string)
    requires Covers(walk, files) && k in files && !(BackupsName + "/" <= k)
    ensures d in walk && n in d.names && ArcName(d.rel, n) == k
    ensures d.rel == [] || d.rel[0] != BackupsName
  {
    d, n :| d in walk && n in d.names && ArcName(d.rel, n) == k;
    if d.rel != [] {
      assert k == (d.rel[0] + "/") + (RelDir(d.rel[1..]) + n);
      assert (d.rel[0] + "/") <= k;
    }
  }

  /**
   * When the walk covers the data directory, the intended rule archives every file that
   * does not lie under "backups/", with its contents.
   */
  lemma IntendedArchivesEveryFile(dataDir: string, walk: seq<WalkDir>, files: map<string, Bytes>, k: string)
    requires IsDirPath(dataDir) && WellFormedWalk(walk) && Readable(walk, files) && Covers(walk, files)
    requires k in files && !(BackupsName + "/" <= k)
    ensures Entry(k, files[k]) in Selected(Intended, dataDir, walk, files)
  {
    var d, n := WalkedOutsideBackups(walk, files, k);
    IntendedArchivesOutsideBackups(dataDir, walk, files, d, n);
  }

  /**
   * When the walk covers the data directory, backup under the intended rule and then restore
   * onto any later state brings back every file not under "backups/" with its contents at
   * backup time: the notes file and the calculator log among them.
   */
  lemma IntendedRestoresEveryFile(dataDir: string, walk: seq<WalkDir>, files: map<string, Bytes>,
                                  current: map<string, Bytes>, k: string)
    requires IsDirPath(dataDir) && WellFormedWalk(walk) && Readable(walk, files) && Covers(walk, files)
    requires k in files && !(BackupsName + "/" <= k)
    ensures var restored := current + Extract(Selected(Intended, dataDir, walk, files));
      k in restored && restored[k] == files[k]
  {
    var d, n := WalkedOutsideBackups(walk, files, k);
    IntendedRestoresWalkedFiles(dataDir, walk, files, current, d, n);
  }
}
