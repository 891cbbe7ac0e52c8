/**
  Task management on top of the database: validated creation, guarded
  progress updates, and the read-only progress, resume and completion checks.
*/
module TaskManager {
  import opened Wrappers
  import opened Paths
  import opened Models
  import opened DatabaseManager

  datatype TaskError =
    | EmptyTaskId          // ValueError: empty task id
    | EmptyFileList        // ValueError: empty file list
    | Storage(cause: DbError)

  /** The dictionary returned by get_task_progress (timestamps left out). */
  datatype TaskProgress = TaskProgress(
    taskId: string,
    totalFiles: int,
    processedFiles: int,
    pendingFiles: nat,
    percentage: real,
    isCompleted: bool)

  /** create_task: arguments are checked before storage is touched. */
  method CreateTask(db: Database, taskId: string, files: seq<Path>, commitOk: bool)
    returns (r: Result<ClassificationTask, TaskError>)
    requires db.Valid()
    modifies db`tasks
    ensures db.Valid()
    ensures taskId == [] ==> r == Failure(EmptyTaskId)
    ensures taskId != [] && files == [] ==> r == Failure(EmptyFileList)
    ensures r.Failure? ==> db.tasks == old(db.tasks)
    ensures r.Success? ==>
      && taskId != [] && files != [] && taskId !in old(db.tasks)
      && r.value == NewTask(taskId, files)
      && db.tasks == old(db.tasks)[taskId := r.value]
    ensures r.Success? && NoDuplicates(files) ==> Consistent(db.tasks[taskId])
    ensures taskId != [] && files != [] && taskId !in old(db.tasks) && commitOk ==> r.Success?
  {
    if taskId == [] {
      return Failure(EmptyTaskId);
    }
    if files == [] {
      return Failure(EmptyFileList);
    }
    var created := db.CreateClassificationTask(taskId, files, commitOk);
    match created
    case Success(task) => return Success(task);
    case Failure(e) => return Failure(Storage(e));
  }

  /** update_task_progress: None for an unknown id; otherwise the atomic update. */
  method UpdateTaskProgress(db: Database, taskId: string, processed: int,
                            completed: seq<Path>, pending: seq<Path>, commitOk: bool)
    returns (r: Result<Option<ClassificationTask>, TaskError>)
    requires db.Valid()
    modifies db`tasks
    ensures db.Valid()
    ensures taskId !in old(db.tasks) ==> r == Success(None) && db.tasks == old(db.tasks)
    ensures taskId in old(db.tasks) && !commitOk ==>
      r == Failure(Storage(CommitFailed)) && db.tasks == old(db.tasks)
    ensures taskId in old(db.tasks) && commitOk ==>
      && r == Success(Some(WithProgress(old(db.tasks)[taskId], processed, completed, pending)))
      && db.tasks == old(db.tasks)[taskId := r.value.value]
  {
    var task := db.GetTaskById(taskId);
    if task.None? {
      return Success(None);
    }
    var updated := db.UpdateClassificationTask(taskId, processed, completed, pending, commitOk);
    match updated
    case Success(t) => return Success(Some(t));
    case Failure(e) => return Failure(Storage(e));
  }

  /** is_task_completed: the stored flag. */
  function IsTaskCompleted(t: ClassificationTask): (r: bool)
    ensures Consistent(t) ==> (r <==> t.pendingFiles == [])
    ensures Consistent(t) && r ==> ProgressPercentage(t) == 100.0 || t.totalFiles == 0
  {
    t.isCompleted
  }

  /** On a consistent task the flag says exactly that nothing is pending. */
  lemma CompletedIffNothingPending(t: ClassificationTask)
    requires Consistent(t)
    ensures IsTaskCompleted(t) <==> t.pendingFiles == []
    ensures IsTaskCompleted(t) ==> t.processedFiles == t.totalFiles
  {
  }

  /** get_task_progress */
  function GetTaskProgress(db: Database, taskId: string): (r: Option<TaskProgress>)
    requires db.Valid()
    reads db
    ensures r.Some? <==> taskId in db.tasks
    ensures r.Some? ==>
      && r.value.taskId == taskId
      && r.value.totalFiles == db.tasks[taskId].totalFiles
      && r.value.processedFiles == db.tasks[taskId].processedFiles
      && r.value.pendingFiles == |db.tasks[taskId].pendingFiles|
      && r.value.percentage == ProgressPercentage(db.tasks[taskId])
      && r.value.isCompleted == db.tasks[taskId].isCompleted
  {
    match db.GetTaskById(taskId)
    case None => None
    case Some(t) =>
      Some(TaskProgress(t.taskId, t.totalFiles, t.processedFiles, |t.pendingFiles|,
                        ProgressPercentage(t), t.isCompleted))
  }

  /** The progress of a consistent task accounts for every file, and reads 100%
      exactly when the task is completed. */
  lemma ProgressAccountsForEveryFile(db: Database, taskId: string)
    requires db.Valid() && taskId in db.tasks && Consistent(db.tasks[taskId])
    ensures var p := GetTaskProgress(db, taskId).value;
      && p.processedFiles + p.pendingFiles == p.totalFiles
      && (p.totalFiles > 0 ==> (p.percentage == 100.0 <==> p.isCompleted))
  {
    var t := db.tasks[taskId];
    if t.totalFiles > 0 {
      FullPercentageIffCompleted(t);
    }
  }

  /** resume_task: the task, unless it is missing, completed, or has nothing pending. */
  function ResumeTask(db: Database, taskId: string): (r: Option<ClassificationTask>)
    requires db.Valid()
    reads db
    ensures r.None? <==>
      taskId !in db.tasks || db.tasks[taskId].isCompleted || db.tasks[taskId].pendingFiles == []
    ensures r.Some? ==> r.value.taskId == taskId && r.value == db.tasks[taskId]
    ensures r.Some? ==> !r.value.isCompleted && r.value.pendingFiles != []
  {
    match db.GetTaskById(taskId)
    case None => None
    case Some(t) =>
      if t.isCompleted then None
      else if t.pendingFiles == [] then None
      else Some(t)
  }

  /** A consistent stored task can be resumed exactly when it is listed by get_pending_tasks. */
  lemma ResumableIffListedPending(db: Database, taskId: string)
    requires db.Valid() && taskId in db.tasks && Consistent(db.tasks[taskId])
    ensures ResumeTask(db, taskId).Some? <==> db.tasks[taskId] in db.GetPendingTasks()
  {
    var t := db.tasks[taskId];
    if t in db.GetPendingTasks() {
      assert !t.isCompleted;
    }
  }
}
