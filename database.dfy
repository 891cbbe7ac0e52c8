/**
  The persistence layer: one object standing for the database reached through
  a session, holding the classification_task table keyed by task id and the
  book_info table keyed by file name. Each mutating operation is one
  transaction: when its commit fails it rolls back and the tables are as
  before.
*/
module DatabaseManager {
  import opened Wrappers
  import opened Paths
  import opened Models

  datatype DbError =
    | DuplicateTaskId   // the unique constraint on task_id rejects the commit
    | CommitFailed      // any other storage failure at commit
    | StatFailed        // os.stat on the new record's path raised

  class Database {
    var tasks: map<string, ClassificationTask>
    var books: map<string, BookInfo>

    /** Each row is stored under its own key, so task_id and filename are unique. */
    ghost predicate Valid()
      reads this
    {
      && (forall id :: id in tasks ==> tasks[id].taskId == id)
      && (forall f :: f in books ==> books[f].filename == f)
    }

    constructor ()
      ensures Valid() && tasks == map[] && books == map[]
    {
      tasks := map[];
      books := map[];
    }

    /** get_or_create_book_info: an existing record is returned untouched; otherwise a
        record is added for the file, sized by `size` (the result of os.stat). */
    method GetOrCreateBookInfo(filename: string, filePath: Path, size: Option<nat>)
      returns (r: Result<BookInfo, DbError>)
      requires Valid()
      modifies this`books
      ensures Valid()
      ensures filename in old(books) ==> r == Success(old(books)[filename]) && books == old(books)
      ensures filename !in old(books) && size.None? ==> r == Failure(StatFailed) && books == old(books)
      ensures filename !in old(books) && size.Some? ==>
        && r == Success(NewBook(filename, filePath, size.value))
        && books == old(books)[filename := r.value]
    {
      if filename in books {
        return Success(books[filename]);
      }
      if size.None? {
        return Failure(StatFailed);
      }
      var book := NewBook(filename, filePath, size.value);
      books := books[filename := book];
      return Success(book);
    }

    /** update_book_category: false and no change when no record has that name. */
    method UpdateBookCategory(filename: string, category: string) returns (found: bool)
      requires Valid()
      modifies this`books
      ensures Valid()
      ensures found <==> filename in old(books)
      ensures found ==> books == old(books)[filename := old(books)[filename].(categoryTag := Some(category))]
      ensures !found ==> books == old(books)
    {
      if filename !in books {
        return false;
      }
      books := books[filename := books[filename].(categoryTag := Some(category))];
      return true;
    }

    /** get_book_by_filename */
    function GetBookByFilename(filename: string): (r: Option<BookInfo>)
      requires Valid()
      reads this
      ensures r.Some? <==> filename in books
      ensures r.Some? ==> r.value.filename == filename && r.value == books[filename]
    {
      if filename in books then Some(books[filename]) else None
    }

    /** get_books_by_category: exactly the records carrying that tag. */
    function GetBooksByCategory(category: string): (r: set<BookInfo>)
      requires Valid()
      reads this
      ensures forall b :: b in r ==> b.categoryTag == Some(category) && b.filename in books && books[b.filename] == b
      ensures forall f :: f in books && books[f].categoryTag == Some(category) ==> books[f] in r
    {
      set f | f in books && books[f].categoryTag == Some(category) :: books[f]
    }

    /** create_classification_task: adds the new task, or fails and leaves the table as it was. */
    method CreateClassificationTask(taskId: string, files: seq<Path>, commitOk: bool)
      returns (r: Result<ClassificationTask, DbError>)
      requires Valid()
      modifies this`tasks
      ensures Valid()
      ensures taskId in old(tasks) ==> r == Failure(DuplicateTaskId) && tasks == old(tasks)
      ensures taskId !in old(tasks) && !commitOk ==> r == Failure(CommitFailed) && tasks == old(tasks)
      ensures taskId !in old(tasks) && commitOk ==>
        r == Success(NewTask(taskId, files)) && tasks == old(tasks)[taskId := r.value]
    {
      if taskId in tasks {
        return Failure(DuplicateTaskId);
      }
      if !commitOk {
        return Failure(CommitFailed);
      }
      var task := NewTask(taskId, files);
      tasks := tasks[taskId := task];
      return Success(task);
    }

    /** update_classification_task: the three progress fields and the completion flag
        change together, or (commit failure) nothing changes. */
    method UpdateClassificationTask(taskId: string, processed: int, completed: seq<Path>,
                                    pending: seq<Path>, commitOk: bool)
      returns (r: Result<ClassificationTask, DbError>)
      requires Valid() && taskId in tasks
      modifies this`tasks
      ensures Valid()
      ensures commitOk ==>
        && r == Success(WithProgress(old(tasks)[taskId], processed, completed, pending))
        && tasks == old(tasks)[taskId := r.value]
      ensures !commitOk ==> r == Failure(CommitFailed) && tasks == old(tasks)
    {
      if !commitOk {
        return Failure(CommitFailed);
      }
      var task := WithProgress(tasks[taskId], processed, completed, pending);
      tasks := tasks[taskId := task];
      return Success(task);
    }

    /** get_task_by_id */
    function GetTaskById(taskId: string): (r: Option<ClassificationTask>)
      requires Valid()
      reads this
      ensures r.Some? <==> taskId in tasks
      ensures r.Some? ==> r.value.taskId == taskId && r.value == tasks[taskId]
    {
      if taskId in tasks then Some(tasks[taskId]) else None
    }

    /** get_pending_tasks: exactly the stored tasks whose flag is not set. */
    function GetPendingTasks(): (r: set<ClassificationTask>)
      requires Valid()
      reads this
      ensures forall t :: t in r ==> !t.isCompleted && t.taskId in tasks && tasks[t.taskId] == t
      ensures forall id :: id in tasks && !tasks[id].isCompleted ==> tasks[id] in r
    {
      set id | id in tasks && !tasks[id].isCompleted :: tasks[id]
    }
  }
}
