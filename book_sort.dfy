/**
  The batch controller: it scans the source directory, creates a task over
  the books found, then drains the task's pending list one batch at a time.
  For each batch it asks the oracle, moves every file to its category, and
  commits the new progress. The ledger is re-read at the head of every
  iteration.
*/
module BookSort {
  import opened Wrappers
  import opened Paths
  import opened Models
  import opened DatabaseManager
  import opened TaskManager
  import FileManager
  import FileScanner
  import AI = AICategorization

  function Min(a: nat, b: nat): nat {
    if a <= b then a else b
  }

  /** _get_filename_from_path: os.path.basename. */
  function GetFilenameFromPath(filePath: Path): (r: string)
    ensures SEP !in r
    ensures |r| <= |filePath| && r == filePath[|filePath| - |r|..]
  {
    Basename(filePath)
  }

  /** A path built from a directory and a file name gives that name back. */
  lemma FilenameOfJoinedPath(directory: Path, name: string)
    requires SEP !in name
    ensures GetFilenameFromPath(Join(directory, name)) == name
  {
    JoinBasename(directory, name);
  }

  /** The batch: the first batch_size pending paths, in pending order. */
  function BatchOf(pending: seq<Path>, batchSize: nat): (b: seq<Path>)
    ensures b <= pending
    ensures |b| == Min(batchSize, |pending|)
  {
    pending[..Min(batchSize, |pending|)]
  }

  /** The pending list after a batch: every path of `s` not in `done`, in order. */
  function RemoveAll(s: seq<Path>, done: seq<Path>): (r: seq<Path>)
    ensures |r| <= |s|
    ensures s != [] && s[0] in done ==> |r| < |s|
  {
    if s == [] then []
    else (if s[0] in done then [] else [s[0]]) + RemoveAll(s[1..], done)
  }

  /** A path stays pending exactly when it was pending and is not in the batch. */
  lemma {:induction false} RemoveAllMembers(s: seq<Path>, done: seq<Path>, x: Path)
    ensures x in RemoveAll(s, done) <==> x in s && x !in done
  {
    if s != [] {
      RemoveAllMembers(s[1..], done, x);
      assert s == [s[0]] + s[1..];
    }
  }

  lemma {:induction false} RemoveAllAppend(a: seq<Path>, c: seq<Path>, done: seq<Path>)
    ensures RemoveAll(a + c, done) == RemoveAll(a, done) + RemoveAll(c, done)
  {
    if a == [] {
      assert a + c == c;
    } else {
      assert (a + c)[0] == a[0];
      assert (a + c)[1..] == a[1..] + c;
      RemoveAllAppend(a[1..], c, done);
      var head := if a[0] in done then [] else [a[0]];
      assert RemoveAll(a + c, done) == head + RemoveAll(a[1..] + c, done);
      assert head + (RemoveAll(a[1..], done) + RemoveAll(c, done))
          == (head + RemoveAll(a[1..], done)) + RemoveAll(c, done);
    }
  }

  lemma {:induction false} RemoveAllNothingDone(s: seq<Path>, done: seq<Path>)
    requires forall i :: 0 <= i < |s| ==> s[i] !in done
    ensures RemoveAll(s, done) == s
  {
    if s != [] {
      RemoveAllNothingDone(s[1..], done);
      assert s == [s[0]] + s[1..];
    }
  }

  lemma {:induction false} RemoveAllEverythingDone(s: seq<Path>, done: seq<Path>)
    requires forall i :: 0 <= i < |s| ==> s[i] in done
    ensures RemoveAll(s, done) == []
  {
    if s != [] {
      RemoveAllEverythingDone(s[1..], done);
    }
  }

  /** On a list without repeats, removing a prefix of it leaves exactly the rest. */
  lemma RemovePrefixLeavesSuffix(s: seq<Path>, k: nat)
    requires NoDuplicates(s) && k <= |s|
    ensures RemoveAll(s, s[..k]) == s[k..]
  {
    var front, back := s[..k], s[k..];
    assert RemoveAll(front, front) == [] by {
      RemoveAllEverythingDone(front, front);
    }
    assert RemoveAll(back, front) == back by {
      SuffixAvoidsPrefix(s, k);
      RemoveAllNothingDone(back, front);
    }
    assert s == front + back;
    RemoveAllAppend(front, back, front);
    assert [] + back == back;
  }

  lemma SuffixAvoidsPrefix(s: seq<Path>, k: nat)
    requires NoDuplicates(s) && k <= |s|
    ensures forall j :: 0 <= j < |s[k..]| ==> s[k..][j] !in s[..k]
  {
    forall j | 0 <= j < |s[k..]|
      ensures s[k..][j] !in s[..k]
    {
      forall i | 0 <= i < k
        ensures s[..k][i] != s[k..][j]
      {
        assert s[..k][i] == s[i] && s[k..][j] == s[k + j];
      }
    }
  }

  /** n / b is determined by any quotient-remainder decomposition of n. */
  lemma DivisionIsUnique(n: int, b: int, q: int, r: int)
    requires b > 0 && 0 <= r < b && n == q * b + r
    ensures n / b == q
  {
    MultipleAtLeast(q - n / b, b);
    MultipleAtLeast(n / b - q, b);
  }

  lemma {:induction false} MultipleAtLeast(d: int, b: nat)
    ensures d >= 1 ==> d * b >= b
    decreases if d > 0 then d else 0
  {
    if d > 1 {
      MultipleAtLeast(d - 1, b);
      assert d * b == (d - 1) * b + b;
    }
  }

  /** The ledger exits of the batch loop: completed, or nothing pending. */
  predicate Done(t: ClassificationTask) {
    t.isCompleted || t.pendingFiles == []
  }

  /** The ledger state one loop iteration commits. */
  function NextTask(t: ClassificationTask, batchSize: nat): (u: ClassificationTask)
    ensures u.taskId == t.taskId && u.totalFiles == t.totalFiles
    ensures batchSize > 0 && t.pendingFiles != [] ==> |u.pendingFiles| < |t.pendingFiles|
  {
    var batch := BatchOf(t.pendingFiles, batchSize);
    assert batchSize > 0 && t.pendingFiles != [] ==> batch[0] == t.pendingFiles[0];
    WithProgress(t, t.processedFiles + |batch|, t.completedFiles + batch, RemoveAll(t.pendingFiles, batch))
  }

  /** The ledger when the loop stops, every commit having succeeded. */
  function Drain(t: ClassificationTask, batchSize: nat): ClassificationTask
    requires batchSize > 0
    decreases |t.pendingFiles|
  {
    if Done(t) then t else Drain(NextTask(t, batchSize), batchSize)
  }

  /** How many commits the loop makes before it stops. */
  function Commits(t: ClassificationTask, batchSize: nat): nat
    requires batchSize > 0
    decreases |t.pendingFiles|
  {
    if Done(t) then 0 else 1 + Commits(NextTask(t, batchSize), batchSize)
  }

  /** One iteration on a consistent ledger: the batch moves from the front of pending
      to the end of completed, processed grows by its length, and the ledger stays consistent. */
  lemma NextTaskKeepsConsistent(t: ClassificationTask, batchSize: nat)
    requires Consistent(t) && t.pendingFiles != []
    ensures var k := Min(batchSize, |t.pendingFiles|);
      var u := NextTask(t, batchSize);
      && u.pendingFiles == t.pendingFiles[k..]
      && u.completedFiles == t.completedFiles + t.pendingFiles[..k]
      && u.processedFiles == t.processedFiles + k
      && Consistent(u)
  {
    var k := Min(batchSize, |t.pendingFiles|);
    var p := t.pendingFiles;
    NoDuplicatesSuffix(t.completedFiles, p);
    RemovePrefixLeavesSuffix(p, k);
    var u := NextTask(t, batchSize);
    assert u.pendingFiles == p[k..] && u.completedFiles == t.completedFiles + p[..k];
    AppendSplit(t.completedFiles, p, k);
  }

  /** Moving the first k pending entries to the end of the completed list keeps their
      concatenation. */
  lemma AppendSplit(completed: seq<Path>, pending: seq<Path>, k: nat)
    requires k <= |pending|
    ensures (completed + pending[..k]) + pending[k..] == completed + pending
  {
    assert pending == pending[..k] + pending[k..];
  }

  /** The tail of a list without repeats has none either. */
  lemma NoDuplicatesSuffix(front: seq<Path>, back: seq<Path>)
    requires NoDuplicates(front + back)
    ensures NoDuplicates(back)
  {
    var all := front + back;
    forall i, j | 0 <= i < j < |back|
      ensures back[i] != back[j]
    {
      assert all[|front| + i] == back[i] && all[|front| + j] == back[j];
    }
  }

  /** Draining a consistent ledger completes it: nothing pending, every file completed
      in its original order, processed equal to total. */
  lemma {:induction false} DrainCompletes(t: ClassificationTask, batchSize: nat)
    requires Consistent(t) && batchSize > 0
    ensures var d := Drain(t, batchSize);
      && Consistent(d) && d.isCompleted && d.pendingFiles == []
      && d.completedFiles == t.completedFiles + t.pendingFiles
      && d.processedFiles == d.totalFiles == t.totalFiles
      && d.taskId == t.taskId
    decreases |t.pendingFiles|
  {
    if !Done(t) {
      var k := Min(batchSize, |t.pendingFiles|);
      NextTaskKeepsConsistent(t, batchSize);
      var u := NextTask(t, batchSize);
      DrainCompletes(u, batchSize);
      AppendSplit(t.completedFiles, t.pendingFiles, k);
      assert Drain(t, batchSize) == Drain(u, batchSize);
    } else {
      assert t.pendingFiles == [];
      assert t.completedFiles + [] == t.completedFiles;
    }
  }

  /** A consistent ledger with P pending files and batch size B takes ceil(P/B) commits. */
  lemma {:induction false} CommitsIsCeiling(t: ClassificationTask, batchSize: nat)
    requires Consistent(t) && batchSize > 0
    ensures Commits(t, batchSize) == (|t.pendingFiles| + batchSize - 1) / batchSize
    decreases |t.pendingFiles|
  {
    var p := |t.pendingFiles|;
    CeilingSteps(p, batchSize);
    if !Done(t) {
      NextTaskKeepsConsistent(t, batchSize);
      var u := NextTask(t, batchSize);
      CommitsIsCeiling(u, batchSize);
      assert |u.pendingFiles| == p - Min(batchSize, p);
    }
  }

  /** ceil(p/b) is 0 for nothing, 1 for at most one batch, and one more than for p - b. */
  lemma CeilingSteps(p: nat, b: nat)
    requires b > 0
    ensures p == 0 ==> (p + b - 1) / b == 0
    ensures 0 < p <= b ==> (p + b - 1) / b == 1
    ensures p > b ==> (p + b - 1) / b == 1 + (p - b + b - 1) / b
  {
    DivisionIsUnique(b - 1, b, 0, b - 1);
    if 0 < p <= b {
      DivisionIsUnique(p + b - 1, b, 1, p - 1);
    }
    if p > b {
      DivisionStep(p - 1, b);
    }
  }

  /** (x + b) / b is one more than x / b. */
  lemma DivisionStep(x: nat, b: nat)
    requires b > 0
    ensures (x + b) / b == x / b + 1
  {
    DivisionIsUnique(x + b, b, x / b + 1, x % b);
  }

  /** With a batch size of 0 an iteration commits the ledger unchanged but for the
      processed count, so the loop never reaches an exit. */
  lemma ZeroBatchMakesNoProgress(t: ClassificationTask)
    requires !Done(t)
    ensures NextTask(t, 0).pendingFiles == t.pendingFiles
    ensures NextTask(t, 0).completedFiles == t.completedFiles
    ensures !Done(NextTask(t, 0))
  {
    RemoveAllNothingDone(t.pendingFiles, []);
    assert t.completedFiles + [] == t.completedFiles;
  }

  /** A task created over distinct files and drained ends with every file completed once. */
  lemma CreatedTaskDrainsCompletely(taskId: string, files: seq<Path>, batchSize: nat)
    requires files != [] && NoDuplicates(files) && batchSize > 0
    ensures var d := Drain(NewTask(taskId, files), batchSize);
      && d.isCompleted && d.pendingFiles == [] && d.completedFiles == files
      && d.processedFiles == d.totalFiles == |files|
    ensures Commits(NewTask(taskId, files), batchSize) == (|files| + batchSize - 1) / batchSize
  {
    DrainCompletes(NewTask(taskId, files), batchSize);
    CommitsIsCeiling(NewTask(taskId, files), batchSize);
    assert [] + files == files;
  }

  /** classification_results.get(filename, uncat_folder), followed by the use of the value
      as a path component: None when either raises, so the file is left where it is. */
  function LookupCategory(results: AI.Json, filename: string, uncatFolder: string): (r: Option<string>)
    ensures results.JObj? && filename !in results.fields ==> r == Some(uncatFolder)
    ensures results.JObj? && filename in results.fields && results.fields[filename].JStr? ==>
      r == Some(results.fields[filename].s)
    ensures r.None? <==> !results.JObj? || (filename in results.fields && !results.fields[filename].JStr?)
  {
    match results
    case JObj(m) =>
      if filename !in m then Some(uncatFolder)
      else if m[filename].JStr? then Some(m[filename].s)
      else None
    case _ => None
  }

  /** When the oracle gave up (the empty dictionary) every file falls back to the
      uncategorised folder. */
  lemma EmptyResultsUseUncategorised(filename: string, uncatFolder: string)
    ensures LookupCategory(AI.Empty, filename, uncatFolder) == Some(uncatFolder)
  {
  }

  /** The record for a file named filename after it was moved to movedTo and tagged with
      category: an existing record keeps its path and size, a new one starts from the
      moved file. */
  function TaggedRecord(books: map<string, BookInfo>, filename: string, movedTo: Path, size: nat,
                        category: string): BookInfo
  {
    var book := if filename in books then books[filename] else NewBook(filename, movedTo, size);
    book.(categoryTag := Some(category))
  }

  /** The file names of a batch of paths. */
  function BaseNames(batch: seq<Path>): set<string>
  {
    if batch == [] then {} else {Basename(batch[0])} + BaseNames(batch[1..])
  }

  lemma {:induction false} BaseNamesHas(batch: seq<Path>, i: nat)
    requires i < |batch|
    ensures Basename(batch[i]) in BaseNames(batch)
  {
    var rest := batch[1..];
    assert BaseNames(batch) == {Basename(batch[0])} + BaseNames(rest);
    if i > 0 {
      BaseNamesHas(rest, i - 1);
      assert rest[i - 1] == batch[i];
    }
  }

  /** Every path of the batch moved so far went under the directory of its category,
      which now exists, with a name resolved from its own, and its record is tagged with
      that category. */
  ghost predicate Placed(batch: seq<Path>, targetDir: Path, results: AI.Json, uncatFolder: string,
                         outcomes: seq<Option<Path>>, dirs: set<Path>, books: map<string, BookInfo>)
  {
    forall j :: 0 <= j < |outcomes| && j < |batch| && outcomes[j].Some? ==>
      PlacedAt(batch[j], targetDir, results, uncatFolder, outcomes[j].value, dirs, books)
  }

  /** The file p went to dest under the directory of its category, which is in dirs, and
      its record in books is tagged with that category. */
  ghost predicate PlacedAt(p: Path, targetDir: Path, results: AI.Json, uncatFolder: string,
                           dest: Path, dirs: set<Path>, books: map<string, BookInfo>)
  {
    var name := Basename(p);
    var c := LookupCategory(results, name, uncatFolder);
    && c.Some?
    && Join(targetDir, c.value) in dirs
    && FileManager.NamedAfter(Join(Join(targetDir, c.value), name), dest)
    && name in books && books[name].categoryTag == c
  }

  /** A moved file is still at its destination unless that destination is itself a path of
      the batch (and so may have been moved on). */
  ghost predicate Present(batch: seq<Path>, outcomes: seq<Option<Path>>, files: map<Path, nat>)
  {
    forall j :: 0 <= j < |outcomes| && outcomes[j].Some? && outcomes[j].value !in batch ==>
      outcomes[j].value in files
  }

  /** Every path that appeared since start is the destination of a move. */
  ghost predicate Arrived(start: map<Path, nat>, files: map<Path, nat>, outcomes: seq<Option<Path>>)
  {
    forall f :: f in files && f !in start ==> Some(f) in outcomes
  }

  /** Every path of start that is not among done is still there, unchanged. */
  ghost predicate Kept(start: map<Path, nat>, files: map<Path, nat>, done: seq<Path>)
  {
    forall f :: f in start && f !in done ==> f in files && files[f] == start[f]
  }

  /** A path of the batch that was there at the start and not handled before moves
      whenever its category directory can be made: the directory name is not empty, is not
      a file at the start and is not where an earlier path went. */
  ghost predicate Succeeded(batch: seq<Path>, targetDir: Path, results: AI.Json, uncatFolder: string,
                            start: map<Path, nat>, outcomes: seq<Option<Path>>)
  {
    forall j :: 0 <= j < |outcomes| && j < |batch| && batch[j] in start && batch[j] !in batch[..j] ==>
      var c := LookupCategory(results, Basename(batch[j]), uncatFolder);
      c.Some? && Join(targetDir, c.value) != [] && Join(targetDir, c.value) !in start &&
      Some(Join(targetDir, c.value)) !in outcomes[..j] ==>
        outcomes[j].Some?
  }

  /** Records whose name is not in names are those of start, unchanged. */
  ghost predicate BooksOutside(start: map<string, BookInfo>, books: map<string, BookInfo>, names: set<string>)
  {
    && (forall n :: n in start && n !in names ==> n in books && books[n] == start[n])
    && (forall n :: n in books && n !in names ==> n in start)
  }

  lemma BooksOutsideStep(start: map<string, BookInfo>, books0: map<string, BookInfo>,
                         books1: map<string, BookInfo>, names: set<string>, name: string)
    requires BooksOutside(start, books0, names)
    requires name in names
    requires forall n :: n in books0 && n != name ==> n in books1 && books1[n] == books0[n]
    requires forall n :: n in books1 ==> n in books0 || n == name
    ensures BooksOutside(start, books1, names)
  {
  }

  lemma PlacedStep(batch: seq<Path>, targetDir: Path, results: AI.Json, uncatFolder: string,
                   outcomes: seq<Option<Path>>, moved: Option<Path>,
                   dirs0: set<Path>, dirs1: set<Path>, books0: map<string, BookInfo>, books1: map<string, BookInfo>)
    requires |outcomes| < |batch|
    requires Placed(batch, targetDir, results, uncatFolder, outcomes, dirs0, books0)
    requires dirs0 <= dirs1
    requires forall n :: n in books0 && n != Basename(batch[|outcomes|]) ==> n in books1 && books1[n] == books0[n]
    requires moved.None? ==> books1 == books0
    requires moved.Some? ==> PlacedAt(batch[|outcomes|], targetDir, results, uncatFolder, moved.value, dirs1, books1)
    ensures Placed(batch, targetDir, results, uncatFolder, outcomes + [moved], dirs1, books1)
  {
    var next := outcomes + [moved];
    forall j | 0 <= j < |next| && j < |batch| && next[j].Some?
      ensures PlacedAt(batch[j], targetDir, results, uncatFolder, next[j].value, dirs1, books1)
    {
      if j < |outcomes| {
        assert next[j] == outcomes[j];
        assert PlacedAt(batch[j], targetDir, results, uncatFolder, outcomes[j].value, dirs0, books0);
        var name := Basename(batch[j]);
        var c := LookupCategory(results, name, uncatFolder);
        assert Join(targetDir, c.value) in dirs1;
        if moved.None? || name != Basename(batch[|outcomes|]) {
          assert books1[name] == books0[name];
        }
      } else {
        assert next[j] == moved && j == |outcomes|;
      }
    }
  }

  lemma PresentStep(batch: seq<Path>, outcomes: seq<Option<Path>>, moved: Option<Path>,
                    files0: map<Path, nat>, files1: map<Path, nat>)
    requires |outcomes| < |batch|
    requires Present(batch, outcomes, files0)
    requires forall f :: f in files0 && f != batch[|outcomes|] ==> f in files1
    requires moved.Some? ==> moved.value in files1
    ensures Present(batch, outcomes + [moved], files1)
  {
  }

  lemma ArrivedStep(start: map<Path, nat>, outcomes: seq<Option<Path>>, moved: Option<Path>,
                    files0: map<Path, nat>, files1: map<Path, nat>, from: Path)
    requires Arrived(start, files0, outcomes)
    requires moved.None? ==> files1 == files0
    requires moved.Some? ==> from in files0 && files1 == (files0 - {from})[moved.value := files0[from]]
    ensures Arrived(start, files1, outcomes + [moved])
  {
  }

  lemma KeptStep(batch: seq<Path>, i: nat, start: map<Path, nat>, files0: map<Path, nat>, files1: map<Path, nat>)
    requires i < |batch|
    requires Kept(start, files0, batch[..i])
    requires forall f :: f in files0 && f != batch[i] ==> f in files1 && files1[f] == files0[f]
    ensures Kept(start, files1, batch[..i + 1])
  {
  }

  lemma SucceededStep(batch: seq<Path>, targetDir: Path, results: AI.Json, uncatFolder: string,
                      start: map<Path, nat>, outcomes: seq<Option<Path>>, moved: Option<Path>,
                      files0: map<Path, nat>)
    requires |outcomes| < |batch|
    requires Succeeded(batch, targetDir, results, uncatFolder, start, outcomes)
    requires Kept(start, files0, batch[..|outcomes|])
    requires Arrived(start, files0, outcomes)
    requires var c := LookupCategory(results, Basename(batch[|outcomes|]), uncatFolder);
      c.Some? ==>
        (moved.Some? <==> Join(targetDir, c.value) != [] && Join(targetDir, c.value) !in files0 &&
                          batch[|outcomes|] in files0)
    ensures Succeeded(batch, targetDir, results, uncatFolder, start, outcomes + [moved])
  {
    forall j | 0 <= j < |outcomes|
      ensures (outcomes + [moved])[..j] == outcomes[..j]
    {
    }
    assert (outcomes + [moved])[..|outcomes|] == outcomes;
  }

  /** The category directory the file p is moved into, when its lookup succeeds. */
  function CategoryDir(p: Path, targetDir: Path, results: AI.Json, uncatFolder: string): (d: set<Path>)
    ensures LookupCategory(results, Basename(p), uncatFolder).None? ==> d == {}
    ensures LookupCategory(results, Basename(p), uncatFolder).Some? ==>
      d == {Join(targetDir, LookupCategory(results, Basename(p), uncatFolder).value)}
  {
    match LookupCategory(results, Basename(p), uncatFolder)
    case Some(c) => {Join(targetDir, c)}
    case None => {}
  }

  /** The category directories of a batch of paths. */
  function CategoryDirs(batch: seq<Path>, targetDir: Path, results: AI.Json, uncatFolder: string): set<Path>
  {
    if batch == [] then {}
    else CategoryDir(batch[0], targetDir, results, uncatFolder) + CategoryDirs(batch[1..], targetDir, results, uncatFolder)
  }

  lemma {:induction false} CategoryDirsHas(batch: seq<Path>, i: nat, targetDir: Path, results: AI.Json, uncatFolder: string)
    requires i < |batch|
    ensures CategoryDir(batch[i], targetDir, results, uncatFolder) <= CategoryDirs(batch, targetDir, results, uncatFolder)
  {
    var rest := batch[1..];
    assert CategoryDirs(batch, targetDir, results, uncatFolder)
        == CategoryDir(batch[0], targetDir, results, uncatFolder) + CategoryDirs(rest, targetDir, results, uncatFolder);
    if i > 0 {
      CategoryDirsHas(rest, i - 1, targetDir, results, uncatFolder);
      assert rest[i - 1] == batch[i];
    }
  }

  /** The directories grew from start, and only by directories among extra. */
  ghost predicate DirsWithin(start: set<Path>, dirs: set<Path>, extra: set<Path>)
  {
    start <= dirs && forall d :: d in dirs && d !in start ==> d in extra
  }

  lemma DirsWithinStep(start: set<Path>, dirs0: set<Path>, dirs1: set<Path>, added: set<Path>, extra: set<Path>)
    requires DirsWithin(start, dirs0, extra)
    requires dirs0 <= dirs1 <= dirs0 + added && added <= extra
    ensures DirsWithin(start, dirs1, extra)
  {
  }

  /** Everything the batch loop keeps after its first i paths: one outcome per path, the
      file count, the frames on files, directories and records, and the placement and
      success facts. */
  ghost predicate BatchFacts(batch: seq<Path>, i: nat, targetDir: Path, results: AI.Json, uncatFolder: string,
                             start: map<Path, nat>, startDirs: set<Path>, startBooks: map<string, BookInfo>,
                             outcomes: seq<Option<Path>>, files: map<Path, nat>, dirs: set<Path>,
                             books: map<string, BookInfo>)
  {
    && i <= |batch| && |outcomes| == i
    && |files| == |start|
    && DirsWithin(startDirs, dirs, CategoryDirs(batch, targetDir, results, uncatFolder))
    && BooksOutside(startBooks, books, BaseNames(batch))
    && Placed(batch, targetDir, results, uncatFolder, outcomes, dirs, books)
    && Present(batch, outcomes, files)
    && Arrived(start, files, outcomes)
    && Kept(start, files, batch[..i])
    && Succeeded(batch, targetDir, results, uncatFolder, start, outcomes)
  }

  lemma SliceStep(batch: seq<Path>, i: nat)
    requires i < |batch|
    ensures batch[..i + 1] == batch[..i] + [batch[i]]
  {
  }

  datatype RunError = Creation(cause: TaskError) | Progress(cause: TaskError)

  /** How one iteration of the batch loop ended. */
  datatype BatchStep = Stopped | Committed | Aborted(cause: TaskError)

  class Controller {
    const db: Database
    const fs: FileManager.FileSystem
    const batchSize: nat
    const uncatFolder: string

    constructor (db: Database, fs: FileManager.FileSystem, batchSize: nat, uncatFolder: string)
      ensures this.db == db && this.fs == fs
      ensures this.batchSize == batchSize && this.uncatFolder == uncatFolder
    {
      this.db := db;
      this.fs := fs;
      this.batchSize := batchSize;
      this.uncatFolder := uncatFolder;
    }

    /** The two database steps after a successful move: get or create the record for the
        moved file, then tag it with its category. */
    method RecordBook(filename: string, movedTo: Path, size: nat, category: string)
      requires db.Valid()
      modifies db`books
      ensures db.Valid()
      ensures filename in db.books && db.books[filename] == TaggedRecord(old(db.books), filename, movedTo, size, category)
      ensures forall n :: n in old(db.books) && n != filename ==> n in db.books && db.books[n] == old(db.books)[n]
      ensures forall n :: n in db.books ==> n in old(db.books) || n == filename
    {
      var book := db.GetOrCreateBookInfo(filename, movedTo, Some(size));
      var found := db.UpdateBookCategory(filename, category);
    }

    /** The body of the per-file try block: look up the category, move the file,
        record it and tag it. The result is where the file went, or None when a
        step raised. */
    method ProcessFile(filePath: Path, targetDir: Path, results: AI.Json) returns (moved: Option<Path>)
      requires db.Valid() && fs.Valid()
      modifies fs, db`books
      ensures db.Valid() && fs.Valid()
      ensures |fs.files| == |old(fs.files)|
      ensures forall f :: f in old(fs.files) && f != filePath ==> f in fs.files && fs.files[f] == old(fs.files)[f]
      ensures old(fs.dirs) <= fs.dirs
      ensures forall n :: n in old(db.books) && n != Basename(filePath) ==> n in db.books && db.books[n] == old(db.books)[n]
      ensures forall n :: n in db.books ==> n in old(db.books) || n == Basename(filePath)
      ensures moved.None? ==> fs.files == old(fs.files)
      ensures LookupCategory(results, Basename(filePath), uncatFolder).None? ==>
        moved.None? && db.books == old(db.books) && fs.dirs == old(fs.dirs)
      ensures moved.Some? ==>
        && LookupCategory(results, Basename(filePath), uncatFolder).Some?
        && filePath in old(fs.files) && moved.value !in old(fs.Existing())
        && fs.files == (old(fs.files) - {filePath})[moved.value := old(fs.files)[filePath]]
        && Basename(filePath) in db.books
        && db.books[Basename(filePath)].categoryTag == LookupCategory(results, Basename(filePath), uncatFolder)
      ensures var c := LookupCategory(results, Basename(filePath), uncatFolder);
        c.Some? ==>
          var dir := Join(targetDir, c.value);
          moved.Some? <==> dir != [] && dir !in old(fs.files) && filePath in old(fs.files)
      ensures var c := LookupCategory(results, Basename(filePath), uncatFolder);
        c.Some? && moved.None? ==>
          var dir := Join(targetDir, c.value);
          && db.books == old(db.books)
          && fs.dirs == (if dir == [] || dir in old(fs.files) then old(fs.dirs) else old(fs.dirs) + {dir})
      ensures moved.Some? ==>
        var name := Basename(filePath);
        var c := LookupCategory(results, name, uncatFolder).value;
        var dir := Join(targetDir, c);
        && FileManager.ResolvesCollision(old(fs.Existing()) + {dir}, Join(dir, name), moved.value)
        && FileManager.NamedAfter(Join(dir, name), moved.value)
        && fs.dirs == old(fs.dirs) + {dir}
        && name in db.books && db.books[name] == TaggedRecord(old(db.books), name, moved.value, old(fs.files)[filePath], c)
      ensures moved.Some? ==> PlacedAt(filePath, targetDir, results, uncatFolder, moved.value, fs.dirs, db.books)
      ensures fs.dirs <= old(fs.dirs) + CategoryDir(filePath, targetDir, results, uncatFolder)
    {
      var filename := GetFilenameFromPath(filePath);
      var category := LookupCategory(results, filename, uncatFolder);
      if category.None? {
        return None;
      }
      var target := fs.MoveFileToCategory(filePath, targetDir, category.value);
      if target.Failure? {
        return None;
      }
      FileManager.ResolutionIsNamedAfter(old(fs.Existing()) + {Join(targetDir, category.value)},
                                         Join(Join(targetDir, category.value), filename), target.value);
      RecordBook(filename, target.value, fs.files[target.value], category.value);
      return Some(target.value);
    }

    /** The for loop over a batch: every path is recorded as completed, in batch
        order, whether its processing succeeded or raised. */
    method ProcessBatch(batch: seq<Path>, targetDir: Path, results: AI.Json)
      returns (completedList: seq<Path>, ghost outcomes: seq<Option<Path>>)
      requires db.Valid() && fs.Valid()
      modifies fs, db`books
      ensures db.Valid() && fs.Valid()
      ensures |fs.files| == |old(fs.files)|
      ensures completedList == batch
      ensures Kept(old(fs.files), fs.files, batch)
      ensures DirsWithin(old(fs.dirs), fs.dirs, CategoryDirs(batch, targetDir, results, uncatFolder))
      ensures BooksOutside(old(db.books), db.books, BaseNames(batch))
      ensures |outcomes| == |batch|
      ensures Placed(batch, targetDir, results, uncatFolder, outcomes, fs.dirs, db.books)
      ensures Present(batch, outcomes, fs.files)
      ensures Arrived(old(fs.files), fs.files, outcomes)
      ensures Succeeded(batch, targetDir, results, uncatFolder, old(fs.files), outcomes)
    {
      completedList := [];
      outcomes := [];
      for i := 0 to |batch|
        invariant db.Valid() && fs.Valid()
        invariant completedList == batch[..i]
        invariant BatchFacts(batch, i, targetDir, results, uncatFolder, old(fs.files), old(fs.dirs), old(db.books),
                             outcomes, fs.files, fs.dirs, db.books)
      {
        SliceStep(batch, i);
        var moved := ProcessAt(batch, i, targetDir, results, old(fs.files), old(fs.dirs), old(db.books), outcomes);
        completedList := completedList + [batch[i]];
        outcomes := outcomes + [moved];
      }
      assert batch[..|batch|] == batch;
    }

    /** One pass of the for loop: process batch[i] and keep the batch facts. */
    method ProcessAt(batch: seq<Path>, i: nat, targetDir: Path, results: AI.Json,
                     ghost start: map<Path, nat>, ghost startDirs: set<Path>, ghost startBooks: map<string, BookInfo>,
                     ghost outcomes: seq<Option<Path>>)
      returns (moved: Option<Path>)
      requires db.Valid() && fs.Valid()
      requires i < |batch|
      requires BatchFacts(batch, i, targetDir, results, uncatFolder, start, startDirs, startBooks,
                          outcomes, fs.files, fs.dirs, db.books)
      modifies fs, db`books
      ensures db.Valid() && fs.Valid()
      ensures BatchFacts(batch, i + 1, targetDir, results, uncatFolder, start, startDirs, startBooks,
                         outcomes + [moved], fs.files, fs.dirs, db.books)
    {
      BaseNamesHas(batch, i);
      CategoryDirsHas(batch, i, targetDir, results, uncatFolder);
      moved := ProcessFile(batch[i], targetDir, results);
      DirsWithinStep(startDirs, old(fs.dirs), fs.dirs, CategoryDir(batch[i], targetDir, results, uncatFolder),
                     CategoryDirs(batch, targetDir, results, uncatFolder));
      BooksOutsideStep(startBooks, old(db.books), db.books, BaseNames(batch), Basename(batch[i]));
      PlacedStep(batch, targetDir, results, uncatFolder, outcomes, moved, old(fs.dirs), fs.dirs, old(db.books), db.books);
      PresentStep(batch, outcomes, moved, old(fs.files), fs.files);
      ArrivedStep(start, outcomes, moved, old(fs.files), fs.files, batch[i]);
      KeptStep(batch, i, start, old(fs.files), fs.files);
      SucceededStep(batch, targetDir, results, uncatFolder, start, outcomes, moved, old(fs.files));
    }

    /** One iteration of the loop in _process_classification: re-read the task, stop if it
        is missing, completed or has nothing pending; otherwise classify the first batch,
        process its files and commit the new progress. */
    method ProcessNextBatch(taskId: string, targetDir: Path,
                            outcome: nat -> AI.AttemptOutcome, loads: AI.Loads, commitOk: bool)
      returns (r: BatchStep, ghost classified: AI.Json, ghost outcomes: seq<Option<Path>>)
      requires batchSize > 0
      requires db.Valid() && fs.Valid()
      modifies fs, db
      ensures db.Valid() && fs.Valid()
      ensures |fs.files| == |old(fs.files)|
      ensures r == Stopped <==> taskId !in old(db.tasks) || Done(old(db.tasks)[taskId])
      ensures r == Stopped ==>
        && db.tasks == old(db.tasks) && fs.files == old(fs.files)
        && db.books == old(db.books) && fs.dirs == old(fs.dirs)
      ensures r == Committed ==>
        && commitOk && taskId in old(db.tasks)
        && db.tasks == old(db.tasks)[taskId := NextTask(old(db.tasks)[taskId], batchSize)]
      ensures r.Aborted? ==> !commitOk && r.cause == Storage(CommitFailed) && db.tasks == old(db.tasks)
      ensures r != Stopped ==>
        && taskId in old(db.tasks)
        && var batch := BatchOf(old(db.tasks)[taskId].pendingFiles, batchSize);
        && classified == AI.Run(outcome, loads, 0).result
        && |outcomes| == |batch|
        && Placed(batch, targetDir, classified, uncatFolder, outcomes, fs.dirs, db.books)
        && Succeeded(batch, targetDir, classified, uncatFolder, old(fs.files), outcomes)
        && Present(batch, outcomes, fs.files)
        && Arrived(old(fs.files), fs.files, outcomes)
        && Kept(old(fs.files), fs.files, batch)
        && BooksOutside(old(db.books), db.books, BaseNames(batch))
        && DirsWithin(old(fs.dirs), fs.dirs, CategoryDirs(batch, targetDir, classified, uncatFolder))
    {
      classified, outcomes := AI.Empty, [];
      var task := db.GetTaskById(taskId);
      if task.None? || IsTaskCompleted(task.value) {
        r := Stopped;
        return;
      }
      var progress := GetTaskProgress(db, taskId);
      var taskObj := task.value;
      var pendingFilesList := taskObj.pendingFiles;
      if pendingFilesList == [] {
        r := Stopped;
        return;
      }
      var batchFiles := BatchOf(pendingFilesList, batchSize);
      var batchFilenames := seq(|batchFiles|, i requires 0 <= i < |batchFiles| => GetFilenameFromPath(batchFiles[i]));
      assert |batchFilenames| > 0;
      var results, delays, attempts := AI.ClassifyBooks(batchFilenames, outcome, loads);
      classified := results;
      var completedFilesList;
      completedFilesList, outcomes := ProcessBatch(batchFiles, targetDir, results);
      ghost var dirs, books := fs.dirs, db.books;
      var completedCount := progress.value.processedFiles + |completedFilesList|;
      var allCompleted := taskObj.completedFiles + completedFilesList;
      var remainingPending := RemoveAll(pendingFilesList, completedFilesList);
      assert WithProgress(taskObj, completedCount, allCompleted, remainingPending) == NextTask(taskObj, batchSize);
      var updated := UpdateTaskProgress(db, taskId, completedCount, allCompleted, remainingPending, commitOk);
      assert fs.dirs == dirs && db.books == books;
      if updated.Failure? {
        r := Aborted(updated.error);
        return;
      }
      r := Committed;
    }

    /** _process_classification: batches until the task is missing, completed or has
        nothing pending. Batch k asks the oracle with attempt outcomes outcomes(k) and
        commits with success commitOk(k); a failed commit ends the loop with the error.
        The result counts the commits. */
    method ProcessClassification(taskId: string, targetDir: Path,
                                 outcomes: nat -> nat -> AI.AttemptOutcome, loads: AI.Loads,
                                 commitOk: nat -> bool)
      returns (r: Result<nat, TaskError>)
      requires batchSize > 0
      requires db.Valid() && fs.Valid()
      modifies fs, db
      ensures db.Valid() && fs.Valid()
      ensures |fs.files| == |old(fs.files)|
      ensures taskId !in old(db.tasks) ==> r == Success(0) && db.tasks == old(db.tasks)
      ensures taskId in old(db.tasks) ==>
        && taskId in db.tasks
        && db.tasks == old(db.tasks)[taskId := db.tasks[taskId]]
        && Drain(db.tasks[taskId], batchSize) == Drain(old(db.tasks)[taskId], batchSize)
      ensures taskId in old(db.tasks) && Consistent(old(db.tasks)[taskId]) ==> Consistent(db.tasks[taskId])
      ensures r.Success? && taskId in old(db.tasks) ==>
        && db.tasks[taskId] == Drain(old(db.tasks)[taskId], batchSize)
        && r.value == Commits(old(db.tasks)[taskId], batchSize)
      ensures r.Success? ==> forall k :: 0 <= k < r.value ==> commitOk(k)
      ensures r.Failure? ==> r.error == Storage(CommitFailed)
    {
      var commits: nat := 0;
      ghost var start := if taskId in db.tasks then Some(db.tasks[taskId]) else None;
      while true
        invariant db.Valid() && fs.Valid()
        invariant |fs.files| == |old(fs.files)|
        invariant start.None? ==> taskId !in old(db.tasks) && db.tasks == old(db.tasks) && commits == 0
        invariant start.Some? ==> Progressing(old(db.tasks), db.tasks, taskId, start.value, commits, batchSize)
        invariant AllCommitted(commitOk, commits)
        decreases if taskId in db.tasks then |db.tasks[taskId].pendingFiles| else 0
      {
        ghost var prev := db.tasks;
        var step, _, _ := ProcessNextBatch(taskId, targetDir, outcomes(commits), loads, commitOk(commits));
        match step
        case Stopped =>
          if start.Some? {
            ProgressDone(old(db.tasks), db.tasks, taskId, start.value, commits, batchSize);
          }
          return Success(commits);
        case Aborted(e) =>
          return Failure(e);
        case Committed =>
          ProgressStep(old(db.tasks), prev, db.tasks, taskId, start.value, commits, batchSize);
          CommittedStep(commitOk, commits);
          commits := commits + 1;
      }
    }

    /** run, from the scan on: no books, no task and no error; otherwise a task over the books found,
        then the batch loop over it. */
    method Run(scanner: FileScanner.Scanner, srcDir: Path, listing: FileScanner.Listing, targetDir: Path,
               taskId: string, createOk: bool,
               outcomes: nat -> nat -> AI.AttemptOutcome, loads: AI.Loads, commitOk: nat -> bool)
      returns (r: Result<nat, RunError>)
      requires batchSize > 0
      requires db.Valid() && fs.Valid()
      modifies fs, db
      ensures db.Valid() && fs.Valid()
      ensures var books := if listing.Some? then FileScanner.BookFiles(srcDir, listing.value, scanner.bookExtensions) else [];
        books == [] ==>
          && r == Success(0) && db.tasks == old(db.tasks) && fs.files == old(fs.files)
          && db.books == old(db.books) && fs.dirs == old(fs.dirs)
      ensures var books := if listing.Some? then FileScanner.BookFiles(srcDir, listing.value, scanner.bookExtensions) else [];
        books != [] && r.Success? ==>
          && taskId !in old(db.tasks) && taskId in db.tasks
          && db.tasks[taskId] == Drain(NewTask(taskId, books), batchSize)
          && r.value == Commits(NewTask(taskId, books), batchSize)
      ensures var books := if listing.Some? then FileScanner.BookFiles(srcDir, listing.value, scanner.bookExtensions) else [];
        r.Failure? && r.error.Creation? ==>
          && books != [] && db.tasks == old(db.tasks) && fs.files == old(fs.files)
          && db.books == old(db.books) && fs.dirs == old(fs.dirs)
          && (taskId == [] || taskId in old(db.tasks) || !createOk)
      ensures var books := if listing.Some? then FileScanner.BookFiles(srcDir, listing.value, scanner.bookExtensions) else [];
        r.Failure? && r.error.Progress? ==>
          && books != [] && taskId !in old(db.tasks) && taskId in db.tasks
          && db.tasks == old(db.tasks)[taskId := db.tasks[taskId]]
          && Drain(db.tasks[taskId], batchSize) == Drain(NewTask(taskId, books), batchSize)
          && (NoDuplicates(books) ==> Consistent(db.tasks[taskId]))
    {
      var bookFiles := scanner.ScanBooks(srcDir, listing);
      if bookFiles == [] {
        return Success(0);
      }
      var created := CreateTask(db, taskId, bookFiles, createOk);
      if created.Failure? {
        return Failure(Creation(created.error));
      }
      assert taskId in db.tasks && db.tasks[taskId] == NewTask(taskId, bookFiles);
      var processed := ProcessClassification(taskId, targetDir, outcomes, loads, commitOk);
      if processed.Failure? {
        UpdateTwice(old(db.tasks), taskId, NewTask(taskId, bookFiles), db.tasks[taskId]);
        return Failure(Progress(processed.error));
      }
      return Success(processed.value);
    }
  }

  /** A second update of the same key overrides the first. */
  lemma UpdateTwice<K, V>(m: map<K, V>, k: K, first: V, second: V)
    ensures m[k := first][k := second] == m[k := second]
  {
  }

  /** The loop invariant of the batch loop: only the task's own record has changed,
      it is on the path from the starting ledger to the drained one, and `commits`
      commits separate it from the start. */
  ghost predicate Progressing(before: map<string, ClassificationTask>, now: map<string, ClassificationTask>,
                              taskId: string, start: ClassificationTask, commits: nat, batchSize: nat)
  {
    && batchSize > 0
    && taskId in before && before[taskId] == start
    && taskId in now && now == before[taskId := now[taskId]]
    && Drain(now[taskId], batchSize) == Drain(start, batchSize)
    && commits + Commits(now[taskId], batchSize) == Commits(start, batchSize)
    && (Consistent(start) ==> Consistent(now[taskId]))
  }

  /** The first n commits all succeeded. */
  ghost predicate AllCommitted(commitOk: nat -> bool, n: nat) {
    forall k :: 0 <= k < n ==> commitOk(k)
  }

  lemma CommittedStep(commitOk: nat -> bool, n: nat)
    requires AllCommitted(commitOk, n) && commitOk(n)
    ensures AllCommitted(commitOk, n + 1)
  {
  }

  /** One committed batch keeps the loop invariant. */
  lemma ProgressStep(before: map<string, ClassificationTask>, prev: map<string, ClassificationTask>,
                     now: map<string, ClassificationTask>, taskId: string, start: ClassificationTask,
                     commits: nat, batchSize: nat)
    requires Progressing(before, prev, taskId, start, commits, batchSize)
    requires !Done(prev[taskId])
    requires now == prev[taskId := NextTask(prev[taskId], batchSize)]
    ensures Progressing(before, now, taskId, start, commits + 1, batchSize)
  {
    if Consistent(start) {
      NextTaskKeepsConsistent(prev[taskId], batchSize);
    }
  }

  lemma ProgressDone(before: map<string, ClassificationTask>, now: map<string, ClassificationTask>,
                     taskId: string, start: ClassificationTask, commits: nat, batchSize: nat)
    requires Progressing(before, now, taskId, start, commits, batchSize)
    requires Done(now[taskId])
    ensures now[taskId] == Drain(start, batchSize) && commits == Commits(start, batchSize)
  {
  }
}
