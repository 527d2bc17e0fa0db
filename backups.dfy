/**
 * Locating backups: `findSqlFile`, which looks for the dump inside an
 * unpacked backup archive, and the newest-first order of the backup list.
 *
 * A directory is given as the entries `scandir` reports, in scan order;
 * `is_dir` is whether an entry is a `Dir`. The backup storage is given as
 * the files `Storage::files` reports with their size and modification time.
 */
module BackupFiles {
  import opened Wrappers
  import opened Ranking

  /** An entry of a directory listing: a file, or a directory with its own listing. */
  datatype Entry = File(name: string) | Dir(name: string, entries: seq<Entry>)

  // ---------------------------------------------------------------------
  // Names
  // ---------------------------------------------------------------------

  /** The position of the last `c` in `s`, if there is one. */
  function LastIndex(s: string, c: char): (r: Option<nat>)
    ensures r.Some? ==> r.value < |s|
  {
    if s == [] then None
    else if s[|s| - 1] == c then Some(|s| - 1)
    else LastIndex(s[..|s| - 1], c)
  }

  /** LastIndex finds the last occurrence, and none when `c` does not occur. */
  lemma {:induction false} LastIndexIsLast(s: string, c: char)
    ensures var r := LastIndex(s, c);
      && (r.Some? ==> s[r.value] == c && forall j :: r.value < j < |s| ==> s[j] != c)
      && (r.None? ==> forall j :: 0 <= j < |s| ==> s[j] != c)
    decreases |s|
  {
    if s != [] && s[|s| - 1] != c {
      var s' := s[..|s| - 1];
      LastIndexIsLast(s', c);
      assert forall j :: 0 <= j < |s'| ==> s'[j] == s[j];
    }
  }

  /** `pathinfo($name, PATHINFO_EXTENSION)`: what follows the last '.', or "" when there is none. */
  function Extension(name: string): string {
    match LastIndex(name, '.')
    case None => ""
    case Some(k) => name[k + 1..]
  }

  /** The extension is "sql", compared character by character (PHP's `=== 'sql'`). */
  predicate IsSql(name: string) {
    var e := Extension(name);
    |e| == 3 && e[0] == 's' && e[1] == 'q' && e[2] == 'l'
  }

  /** An entry is taken for the dump exactly when its name ends with ".sql" (a directory so named too). */
  lemma IsSqlSuffix(name: string)
    ensures IsSql(name) <==> |name| >= 4 && name[|name| - 4..] == ".sql"
  {
    var r := LastIndex(name, '.');
    LastIndexIsLast(name, '.');
    if IsSql(name) {
      var k := r.value;
      var e := name[k + 1..];
      assert e == "sql";
      assert |name| == k + 4;
      var t := name[|name| - 4..];
      assert t[0] == name[k] == '.';
      assert t[1] == e[0] && t[2] == e[1] && t[3] == e[2];
      assert t == ".sql";
    }
    if |name| >= 4 && name[|name| - 4..] == ".sql" {
      var k := |name| - 4;
      var t := name[k..];
      assert name[k] == t[0] == '.';
      assert name[k + 1] == t[1] && name[k + 2] == t[2] && name[k + 3] == t[3];
      assert r.Some?;
      assert r.value == k;
      var e := name[k + 1..];
      assert e[0] == 's' && e[1] == 'q' && e[2] == 'l';
      assert e == "sql";
    }
  }

  /** `basename($path)` for a path not ending in '/': what follows the last '/'. */
  function Basename(path: string): (r: string)
    ensures forall j :: 0 <= j < |r| ==> r[j] != '/'
    ensures |r| <= |path| && path[|path| - |r|..] == r
    ensures |r| < |path| ==> path[|path| - |r| - 1] == '/'
  {
    LastIndexIsLast(path, '/');
    match LastIndex(path, '/')
    case None => path
    case Some(k) => path[k + 1..]
  }

  // ---------------------------------------------------------------------
  // findSqlFile
  // ---------------------------------------------------------------------

  /** The first entry whose name has the extension "sql", in scan order. */
  function FirstSql(entries: seq<Entry>): Option<string> {
    if entries == [] then None
    else if IsSql(entries[0].name) then Some(entries[0].name)
    else FirstSql(entries[1..])
  }

  /** `is_dir($directory . '/db-dumps')`: the directory of that name, if the listing has one. */
  function Dumps(entries: seq<Entry>): (r: Option<Entry>)
    ensures r.Some? ==> r.value.Dir? && r.value.name == "db-dumps" && r.value in entries
    ensures r.None? ==> forall e :: e in entries ==> !(e.Dir? && e.name == "db-dumps")
  {
    if entries == [] then None
    else if entries[0].Dir? && entries[0].name == "db-dumps" then Some(entries[0])
    else Dumps(entries[1..])
  }

  /** A subdirectory the search descends into: not ".", ".." or "db-dumps". */
  predicate Descends(e: Entry) {
    e.Dir? && e.name !in NotSearched
  }

  const NotSearched: seq<string> := [".", "..", "db-dumps"]

  /** The result of `findSqlFile($dir)` for the directory `d`. */
  function Search(dir: string, d: Entry): Option<string>
    requires d.Dir?
    decreases d, 1, 0
  {
    var dumps := Dumps(d.entries);
    if dumps.Some? && FirstSql(dumps.value.entries).Some? then
      Some(dir + "/db-dumps" + "/" + FirstSql(dumps.value.entries).value)
    else Scan(dir, d, 0)
  }

  /** The scan of the entries of `d` from position `i` on. */
  function Scan(dir: string, d: Entry, i: nat): Option<string>
    requires d.Dir? && i <= |d.entries|
    decreases d, 0, |d.entries| - i
  {
    if i == |d.entries| then None
    else
      var hit := EntryHit(dir, d.entries[i]);
      if hit.Some? then hit else Scan(dir, d, i + 1)
  }

  /** What one entry of the scan yields: itself when it is a ".sql" entry, else what its subdirectory holds. */
  function EntryHit(dir: string, e: Entry): Option<string>
    decreases e, 2
  {
    if IsSql(e.name) then Some(dir + "/" + e.name)
    else if Descends(e) then Search(dir + "/" + e.name, e)
    else None
  }

  /**
   * findSqlFile: a ".sql" entry of "db-dumps" first, then the entries in
   * scan order, each either a ".sql" entry or a subdirectory searched in
   * the same way; None when nothing is found.
   */
  method FindSqlFile(directory: string, d: Entry) returns (found: Option<string>)
    requires d.Dir?
    ensures found == Search(directory, d)
    decreases d
  {
    var dumps := Dumps(d.entries);
    if dumps.Some? {
      var dbDumpsDir := directory + "/db-dumps";
      var sqlFile := FirstSqlIn(dbDumpsDir, dumps.value.entries);
      if sqlFile.Some? {
        return sqlFile;
      }
    }
    SearchFallsThrough(directory, d);
    var files := d.entries;
    var i := 0;
    while i < |files|
      invariant 0 <= i <= |files|
      invariant Search(directory, d) == Scan(directory, d, i)
    {
      var file := files[i];
      if IsSql(file.name) {
        return Some(directory + "/" + file.name);
      }
      var path := directory + "/" + file.name;
      if Descends(file) {
        var sqlFile := FindSqlFile(path, file);
        if sqlFile.Some? {
          return sqlFile;
        }
      }
      i := i + 1;
    }
    return None;
  }

  /** The loop over the listing of "db-dumps": the path of its first ".sql" entry. */
  method FirstSqlIn(dir: string, files: seq<Entry>) returns (found: Option<string>)
    ensures found.None? <==> FirstSql(files).None?
    ensures found.Some? ==> found.value == dir + "/" + FirstSql(files).value
  {
    var i := 0;
    while i < |files|
      invariant 0 <= i <= |files|
      invariant FirstSql(files) == FirstSql(files[i..])
    {
      FirstSqlStep(files, i);
      if IsSql(files[i].name) {
        return Some(dir + "/" + files[i].name);
      }
      i := i + 1;
    }
    assert files[i..] == [];
    return None;
  }

  /** Without a ".sql" entry in "db-dumps", the search is the scan of the entries. */
  lemma SearchFallsThrough(dir: string, d: Entry)
    requires d.Dir?
    requires Dumps(d.entries).None? || FirstSql(Dumps(d.entries).value.entries).None?
    ensures Search(dir, d) == Scan(dir, d, 0)
  {
  }

  lemma FirstSqlStep(files: seq<Entry>, i: nat)
    requires i < |files|
    ensures IsSql(files[i].name) ==> FirstSql(files[i..]) == Some(files[i].name)
    ensures !IsSql(files[i].name) ==> FirstSql(files[i..]) == FirstSql(files[i + 1..])
  {
    assert files[i..][0] == files[i];
    assert files[i..][1..] == files[i + 1..];
  }

  /** A place where the search may find the dump: a directory path and the name of a ".sql" entry in it. */
  datatype Found = Found(dir: string, name: string)

  function PathOf(f: Found): string {
    f.dir + "/" + f.name
  }

  function Names(dir: string, entries: seq<Entry>): (r: seq<Found>)
    ensures |r| <= |entries|
  {
    if entries == [] then []
    else (if IsSql(entries[0].name) then [Found(dir, entries[0].name)] else []) + Names(dir, entries[1..])
  }

  /**
   * Every ".sql" entry the search can reach, in the order of its priority:
   * those of "db-dumps", then for each entry in scan order the entry itself
   * and what its subdirectory holds.
   */
  function Candidates(dir: string, d: Entry): seq<Found>
    requires d.Dir?
    decreases d, 1, 0
  {
    var dumps := Dumps(d.entries);
    (if dumps.Some? then Names(dir + "/db-dumps", dumps.value.entries) else [])
      + ScanCandidates(dir, d, 0)
  }

  function ScanCandidates(dir: string, d: Entry, i: nat): seq<Found>
    requires d.Dir? && i <= |d.entries|
    decreases d, 0, |d.entries| - i
  {
    if i == |d.entries| then []
    else
      var e := d.entries[i];
      (if IsSql(e.name) then [Found(dir, e.name)] else [])
        + (if Descends(e) then Candidates(dir + "/" + e.name, e) else [])
        + ScanCandidates(dir, d, i + 1)
  }

  lemma {:induction false} FirstSqlIsFirstName(dir: string, entries: seq<Entry>)
    ensures FirstSql(entries).None? <==> Names(dir, entries) == []
    ensures FirstSql(entries).Some? ==> Names(dir, entries)[0] == Found(dir, FirstSql(entries).value)
  {
    if entries != [] {
      FirstSqlIsFirstName(dir, entries[1..]);
    }
  }

  lemma {:induction false} NamesAreSql(dir: string, entries: seq<Entry>)
    ensures forall f :: f in Names(dir, entries) ==> f.dir == dir && IsSql(f.name)
  {
    if entries != [] {
      NamesAreSql(dir, entries[1..]);
    }
  }

  /** `findSqlFile` returns the first candidate, and null exactly when there is none. */
  lemma {:induction false} SearchIsFirstCandidate(dir: string, d: Entry)
    requires d.Dir?
    ensures Search(dir, d).None? <==> Candidates(dir, d) == []
    ensures Search(dir, d).Some? ==> Search(dir, d).value == PathOf(Candidates(dir, d)[0])
    decreases d, 1, 0
  {
    var dumps := Dumps(d.entries);
    var ns := if dumps.Some? then Names(dir + "/db-dumps", dumps.value.entries) else [];
    var sc := ScanCandidates(dir, d, 0);
    assert Candidates(dir, d) == ns + sc;
    ScanIsFirstCandidate(dir, d, 0);
    if dumps.Some? {
      FirstSqlIsFirstName(dir + "/db-dumps", dumps.value.entries);
    }
    if ns == [] {
      assert ns + sc == sc;
    } else {
      assert (ns + sc)[0] == ns[0];
    }
  }

  lemma {:induction false} ScanIsFirstCandidate(dir: string, d: Entry, i: nat)
    requires d.Dir? && i <= |d.entries|
    ensures Scan(dir, d, i).None? <==> ScanCandidates(dir, d, i) == []
    ensures Scan(dir, d, i).Some? ==> Scan(dir, d, i).value == PathOf(ScanCandidates(dir, d, i)[0])
    decreases d, 0, |d.entries| - i
  {
    if i < |d.entries| {
      var e := d.entries[i];
      var path := dir + "/" + e.name;
      var own := if IsSql(e.name) then [Found(dir, e.name)] else [];
      var sub := if Descends(e) then Candidates(path, e) else [];
      var rest := ScanCandidates(dir, d, i + 1);
      assert ScanCandidates(dir, d, i) == own + sub + rest;
      ScanIsFirstCandidate(dir, d, i + 1);
      if Descends(e) {
        SearchIsFirstCandidate(path, e);
      }
      if own != [] {
        assert (own + sub + rest)[0] == own[0];
      } else if sub != [] {
        assert (own + sub + rest)[0] == sub[0];
      } else {
        assert own + sub + rest == rest;
      }
    }
  }

  /** Every candidate is a ".sql" entry. */
  lemma {:induction false} CandidatesAreSql(dir: string, d: Entry)
    requires d.Dir?
    ensures forall f :: f in Candidates(dir, d) ==> IsSql(f.name)
    decreases d, 1, 0
  {
    var dumps := Dumps(d.entries);
    ScanCandidatesAreSql(dir, d, 0);
    if dumps.Some? {
      NamesAreSql(dir + "/db-dumps", dumps.value.entries);
    }
  }

  lemma {:induction false} ScanCandidatesAreSql(dir: string, d: Entry, i: nat)
    requires d.Dir? && i <= |d.entries|
    ensures forall f :: f in ScanCandidates(dir, d, i) ==> IsSql(f.name)
    decreases d, 0, |d.entries| - i
  {
    if i < |d.entries| {
      var e := d.entries[i];
      ScanCandidatesAreSql(dir, d, i + 1);
      if Descends(e) {
        CandidatesAreSql(dir + "/" + e.name, e);
      }
    }
  }

  /** What `findSqlFile` returns names a ".sql" entry: a path ending in "/" and such a name. */
  lemma FoundIsSql(dir: string, d: Entry)
    requires d.Dir? && Search(dir, d).Some?
    ensures exists f :: f in Candidates(dir, d) && IsSql(f.name) && Search(dir, d).value == PathOf(f)
  {
    SearchIsFirstCandidate(dir, d);
    CandidatesAreSql(dir, d);
    var f := Candidates(dir, d)[0];
    assert f in Candidates(dir, d);
  }

  /** A ".sql" entry of "db-dumps" wins over everything else. */
  lemma DumpsFirst(dir: string, d: Entry)
    requires d.Dir? && Dumps(d.entries).Some? && Names(dir + "/db-dumps", Dumps(d.entries).value.entries) != []
    ensures Search(dir, d).Some? && Search(dir, d).value == PathOf(Names(dir + "/db-dumps", Dumps(d.entries).value.entries)[0])
  {
    SearchIsFirstCandidate(dir, d);
  }

  // ---------------------------------------------------------------------
  // getBackupFiles
  // ---------------------------------------------------------------------

  /** A file of the backup storage: its path, its size and its modification time (seconds). */
  datatype StoredFile = StoredFile(path: string, size: nat, lastModified: int)

  /** An entry of the backup list. */
  datatype BackupFile = BackupFile(name: string, size: nat, lastModified: int)

  function Listed(f: StoredFile): BackupFile {
    BackupFile(Basename(f.path), f.size, f.lastModified)
  }

  function Listing(stored: seq<StoredFile>): (r: seq<BackupFile>)
    ensures |r| == |stored| && forall i :: 0 <= i < |stored| ==> r[i] == Listed(stored[i])
  {
    if stored == [] then [] else [Listed(stored[0])] + Listing(stored[1..])
  }

  function ModifiedKey(f: BackupFile): Key {
    Val(f.lastModified)
  }

  /**
   * `usort` with `$b['last_modified'] - $a['last_modified']`: newest first;
   * files modified at the same second keep their storage order, as PHP's
   * sort is stable since PHP 8.0.
   */
  function NewestFirst(files: seq<BackupFile>): seq<BackupFile> {
    SortDesc(files, ModifiedKey)
  }

  /** getBackupFiles: one entry per stored file, named by its basename, newest first. */
  method GetBackupFiles(stored: seq<StoredFile>) returns (files: seq<BackupFile>)
    ensures files == NewestFirst(Listing(stored))
  {
    files := [];
    var i := 0;
    while i < |stored|
      invariant 0 <= i <= |stored|
      invariant files == Listing(stored[..i])
    {
      var file := stored[i];
      var filename := Basename(file.path);
      ListingSnoc(stored, i);
      files := files + [BackupFile(filename, file.size, file.lastModified)];
      i := i + 1;
    }
    assert stored[..i] == stored;
    files := SortDesc(files, ModifiedKey);
  }

  lemma ListingSnoc(stored: seq<StoredFile>, i: nat)
    requires i < |stored|
    ensures Listing(stored[..i + 1]) == Listing(stored[..i]) + [Listed(stored[i])]
  {
    var a, b := Listing(stored[..i + 1]), Listing(stored[..i]) + [Listed(stored[i])];
    assert |a| == |b|;
    forall j | 0 <= j < |a|
      ensures a[j] == b[j]
    {
      assert stored[..i + 1][j] == stored[j];
      if j < i {
        assert stored[..i][j] == stored[j];
      }
    }
  }

  /** The list is ordered by modification time, newest first. */
  lemma NewestFirstOrdered(files: seq<BackupFile>)
    ensures forall i, j :: 0 <= i < j < |NewestFirst(files)| ==>
      NewestFirst(files)[i].lastModified >= NewestFirst(files)[j].lastModified
  {
    SortDescSorted(files, ModifiedKey);
  }

  /** The list holds every stored file once, and nothing else. */
  lemma NewestFirstPermutes(files: seq<BackupFile>)
    ensures multiset(NewestFirst(files)) == multiset(files)
  {
    SortDescPermutes(files, ModifiedKey);
  }

  /** Files with the same modification time keep their storage order. */
  lemma NewestFirstStable(files: seq<BackupFile>, t: int)
    ensures WithKey(NewestFirst(files), ModifiedKey, Val(t)) == WithKey(files, ModifiedKey, Val(t))
  {
    SortDescStable(files, ModifiedKey, Val(t));
  }
}
