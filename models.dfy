/**
  The two persisted record shapes: a book record keyed by file name and a
  classification task keyed by task id, with the task's derived views
  (progress percentage, "active") and the ledger invariant.
*/
module Models {
  import opened Wrappers
  import opened Paths

  /** One row of book_info. Timestamps are not modelled. */
  datatype BookInfo = BookInfo(
    filename: string,
    filePath: Path,
    fileSize: nat,
    fileExt: string,
    categoryTag: Option<string>)

  /** One row of classification_task; the two JSON text columns become sequences. */
  datatype ClassificationTask = ClassificationTask(
    taskId: string,
    totalFiles: int,
    processedFiles: int,
    completedFiles: seq<Path>,
    pendingFiles: seq<Path>,
    isCompleted: bool)

  predicate NoDuplicates<T(==)>(s: seq<T>) {
    forall i, j :: 0 <= i < j < |s| ==> s[i] != s[j]
  }

  /**
    The ledger invariant: pending and completed are disjoint and free of
    repeats, together they are the task's whole file set, processed counts
    what left pending, and the completion flag says pending is empty.
  */
  predicate Consistent(t: ClassificationTask) {
    && NoDuplicates(t.completedFiles + t.pendingFiles)
    && t.totalFiles == |t.completedFiles| + |t.pendingFiles|
    && t.processedFiles == t.totalFiles - |t.pendingFiles|
    && t.isCompleted == (t.pendingFiles == [])
  }

  /** A task as created: every file pending, nothing completed, processed 0, not completed. */
  function NewTask(taskId: string, files: seq<Path>): (t: ClassificationTask)
    ensures t.taskId == taskId && t.pendingFiles == files && t.completedFiles == []
    ensures t.totalFiles == |files| && t.processedFiles == 0 && !t.isCompleted
    ensures Consistent(t) <==> files != [] && NoDuplicates(files)
  {
    assert [] + files == files;
    ClassificationTask(taskId, |files|, 0, [], files, false)
  }

  /** The three progress fields replaced together, completion recomputed from pending. */
  function WithProgress(t: ClassificationTask, processed: int, completed: seq<Path>, pending: seq<Path>)
    : (u: ClassificationTask)
    ensures u.taskId == t.taskId && u.totalFiles == t.totalFiles
    ensures u.processedFiles == processed && u.completedFiles == completed && u.pendingFiles == pending
    ensures u.isCompleted <==> pending == []
  {
    t.(processedFiles := processed, completedFiles := completed, pendingFiles := pending,
       isCompleted := |pending| == 0)
  }

  /** A new book record: no category yet, extension is the lower-cased splitext suffix. */
  function NewBook(filename: string, filePath: Path, size: nat): (b: BookInfo)
    ensures b.filename == filename && b.filePath == filePath && b.fileSize == size && b.categoryTag.None?
    ensures b.fileExt == Lower(SplitExt(filename).1)
    ensures b.fileExt == [] || (b.fileExt[0] == EXTSEP && EXTSEP !in b.fileExt[1..])
    ensures Lower(b.fileExt) == b.fileExt
  {
    var e := SplitExt(filename).1;
    var ext := Lower(e);
    LowerIdempotent(e);
    LowerKeepsPunctuation(e, EXTSEP);
    BookInfo(filename, filePath, size, ext, None)
  }

  /** get_progress_percentage, over the reals. */
  function ProgressPercentage(t: ClassificationTask): (r: real)
    ensures t.totalFiles == 0 ==> r == 0.0
    ensures t.totalFiles > 0 && 0 <= t.processedFiles <= t.totalFiles ==> 0.0 <= r <= 100.0
    ensures t.totalFiles != 0 ==> (r == 100.0 <==> t.processedFiles == t.totalFiles)
  {
    if t.totalFiles == 0 then 0.0
    else (t.processedFiles as real / t.totalFiles as real) * 100.0
  }

  /** is_active: some files processed and the task not completed. */
  function IsActive(t: ClassificationTask): (r: bool)
    ensures t.isCompleted || t.processedFiles <= 0 ==> !r
    ensures r && t.totalFiles > 0 ==> ProgressPercentage(t) > 0.0
  {
    !t.isCompleted && t.processedFiles > 0
  }

  /** On a consistent task, "active" means the batch loop is part-way through. */
  lemma ActiveMeansPartlyDone(t: ClassificationTask)
    requires Consistent(t)
    ensures IsActive(t) <==> t.pendingFiles != [] && |t.pendingFiles| < t.totalFiles
  {
  }

  /** On a consistent task the percentage reaches 100 exactly when the task is completed. */
  lemma FullPercentageIffCompleted(t: ClassificationTask)
    requires Consistent(t) && t.totalFiles > 0
    ensures ProgressPercentage(t) == 100.0 <==> t.isCompleted
    ensures 0.0 <= ProgressPercentage(t) <= 100.0
  {
  }
}
