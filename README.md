# book_arrange: a verified model of the batch classification engine

book_arrange sorts a directory of e-books into category folders. It scans the
source directory for book files and records a classification task in a small
database: the task id, the total, the processed count, the ordered pending
list and the completed list. It then works through the pending list one batch
at a time. Each batch's titles go to a remote language-model oracle, and each
book is moved into the folder of the category the oracle names, or into the
"uncategorised" folder. The task's progress is committed after every batch,
so an interrupted run can be resumed.

This project models that engine in Dafny, one module per source file:

- `Paths` (paths.dfy): the POSIX path helpers the engine relies on (basename,
  dirname, join, splitext, ASCII lower-casing, decimal counters).
- `Models` (models.dfy): the `BookInfo` and `ClassificationTask` records, the
  progress percentage and `is_active`.
- `DatabaseManager` (database.dfy): the record store and task ledger, as a
  class holding two maps.
- `TaskManager` (task_manager.dfy): task creation, progress updates, resume
  and progress queries.
- `FileManager` (file_manager.dfy): collision resolution for target paths, and
  category-directory creation and file moves over an abstract file system
  class.
- `FileScanner` (file_scanner.dfy): order-preserving filters over a
  directory listing.
- `ConfigManager` (config.dfy): dotted-key configuration lookup, getter
  defaults and the database path.
- `AICategorization` (oracle.dfy): the three-attempt retry policy of the
  oracle client, response parsing, and the brace-matching salvage search.
- `BookSort` (book_sort.dfy): the batch controller, its per-file step and
  the `run` entry point.

The ledger loop is specified by a function `Drain` that commits batches until
nothing is pending, and by `Commits`, which counts those commits. The loop
method is proved equal to them. `Drain` ends with every file completed, and
`Commits` equals ceil(P/B).

External effects are inputs:

- the directory listing is a sequence of entries;
- each oracle attempt's outcome is a function of the batch number and the
  attempt number;
- `json.loads` is an abstract partial function `string -> Option<Json>`;
- each database commit's success is a boolean, or a function of the commit
  number;
- the environment variable for the API key is an `Option<string>`;
- a file size from `os.stat` is an `Option<nat>`.

Sleeps appear as emitted delays in seconds.

## Model

| member | source | states |
|---|---|---|
| Paths.Basename | services/file_manager.py:38 | the base name is a suffix of the path, contains no separator, and is preceded by a separator whenever it is shorter than the path |
| Paths.Dirname | services/file_manager.py:87 | the directory part is a prefix of the path, with trailing separators stripped unless it consists only of separators |
| Paths.DirnameStripsHead | services/file_manager.py:87 | the directory part is the path up to and including its last separator with the trailing separators stripped, kept whole when it is only separators |
| Paths.Join | services/file_manager.py:45 | the joined path ends with the second part and, when that part is not absolute, starts with the first |
| Paths.JoinShape | services/file_manager.py:45 | an absolute second part replaces the first; otherwise the parts are concatenated, with one separator inserted exactly when the first part is non-empty and does not end in one |
| Paths.JoinBasename | services/file_manager.py:94 | the base name of `join(d, name)` is `name` whenever `name` holds no separator |
| Paths.JoinDirname | services/file_manager.py:94 | the directory of `join(d, name)` is `d` whenever `d` is already in dirname form and `name` holds no separator |
| Paths.SplitExt | services/file_manager.py:89 | root + extension gives back the name; the extension is empty or is one dot followed by no dot and no separator |
| Paths.SplitExtAtLastDot | services/file_manager.py:89 | an extension is split off exactly when some dot after the last separator has a non-dot before it in the base name, and then the root ends at the last dot |
| Paths.RStripSeps | services/file_manager.py:87 | strips exactly the trailing separators |
| Paths.RFindIs | services/file_manager.py:89 | characterises the last occurrence of a character, the search splitext performs |
| Paths.RFindAppend | services/file_manager.py:89 | appending text without the character leaves its last occurrence where it was |
| Paths.Lower | scanners/file_scanner.py:36 | lower-casing keeps the length and maps every character through ASCII case folding |
| Paths.LowerIdempotent | database/database_manager.py:75 | an extension that has been lower-cased stays the same when lower-cased again |
| Paths.DecimalRoundTrip | services/file_manager.py:93 | the decimal rendering of the counter reads back as the same number |
| Paths.DecimalInjective | services/file_manager.py:93 | distinct counters render as distinct strings |
| Models.NewTask | database/database_manager.py:163-168 | a new task has all files pending in order, none completed, total equal to the number of files, processed 0, is not completed, and is consistent exactly when the list is non-empty and duplicate-free |
| Models.WithProgress | database/database_manager.py:198-201 | an update keeps the id and total, sets processed, completed and pending to the given values, and sets `is_completed` exactly when the new pending list is empty |
| Models.NewBook | database/database_manager.py:67-78 | a new record carries the given name, path and size, no category, and the lower-cased `splitext` suffix of the name as its extension, which is empty or one dot-led suffix |
| Models.ProgressPercentage | database/models.py:132-140 | the percentage is 0 for an empty task, lies within 0..100 for a valid count, and is 100 exactly when processed equals total |
| Models.IsActive | database/models.py:142-148 | a completed task or one with nothing processed is not active; an active non-empty task has a positive percentage |
| Models.ActiveMeansPartlyDone | database/models.py:142-148 | on a consistent task, active means files are still pending and some have been processed |
| Models.FullPercentageIffCompleted | database/models.py:132-140 | on a consistent non-empty task, 100 percent is reached exactly when the task is completed |
| DatabaseManager.Database.constructor | database/database_manager.py:15-23 | the store starts empty |
| DatabaseManager.Database.GetOrCreateBookInfo | database/database_manager.py:46-83 | an existing record is returned unchanged; otherwise one new record built from the name, path and size is added; a failing stat adds nothing |
| DatabaseManager.Database.UpdateBookCategory | database/database_manager.py:85-115 | reports whether the filename is known; if so, sets exactly that record's category, otherwise changes nothing |
| DatabaseManager.Database.GetBookByFilename | database/database_manager.py:117-129 | returns the record keyed by that filename, or nothing when there is none |
| DatabaseManager.Database.GetBooksByCategory | database/database_manager.py:131-143 | returns exactly the stored records carrying that category |
| DatabaseManager.Database.CreateClassificationTask | database/database_manager.py:145-175 | a duplicate id or a failed commit leaves the ledger unchanged; otherwise the new task is added under its id |
| DatabaseManager.Database.UpdateClassificationTask | database/database_manager.py:177-207 | a commit replaces the three progress fields of that one task; a failed commit leaves the ledger unchanged |
| DatabaseManager.Database.GetTaskById | database/database_manager.py:209-221 | returns the task stored under that id, or nothing |
| DatabaseManager.Database.GetPendingTasks | database/database_manager.py:234-243 | returns exactly the stored tasks that are not completed |
| TaskManager.CreateTask | utils/task_manager.py:23-48 | an empty id or file list is refused before storage is touched; a success stores a fresh task, consistent whenever the files are duplicate-free |
| TaskManager.UpdateTaskProgress | utils/task_manager.py:50-83 | an unknown id returns None and changes nothing; otherwise the atomic update is applied or, on a failed commit, nothing changes |
| TaskManager.IsTaskCompleted | utils/task_manager.py:119-128 | on a consistent task, reports completion exactly when nothing is pending, and then the percentage is 100 unless the task is empty |
| TaskManager.CompletedIffNothingPending | utils/task_manager.py:119-128 | on a consistent task, the completion flag holds exactly when nothing is pending, and then processed equals total |
| TaskManager.GetTaskProgress | utils/task_manager.py:130-153 | returns a summary exactly for known ids, carrying that task's total, processed count, pending count and percentage |
| TaskManager.ProgressAccountsForEveryFile | utils/task_manager.py:140-148 | processed plus pending equals total, and 100 percent means completed |
| TaskManager.ResumeTask | utils/task_manager.py:155-183 | refuses exactly a missing task, a completed task or one with nothing pending, and returns the stored task otherwise |
| TaskManager.ResumableIffListedPending | utils/task_manager.py:155-183 | a consistent task can be resumed exactly when it is among the pending tasks |
| FileManager.SuffixedSplitExt | services/file_manager.py:89-93 | the suffixed name `base_k.ext` splits into the old root with `_k` added and the old extension |
| FileManager.SuffixedInjective | services/file_manager.py:93 | different counters give different suffixed names |
| FileManager.CandidateBasename | services/file_manager.py:93-94 | the k-th candidate's base name is the suffixed base name |
| FileManager.CandidateDirectory | services/file_manager.py:87-94 | every candidate lies in the original directory |
| FileManager.CandidateExtension | services/file_manager.py:89-94 | every candidate keeps the original extension |
| FileManager.CandidateDiffers | services/file_manager.py:92-94 | no candidate is the original path |
| FileManager.CandidateInjective | services/file_manager.py:92-94 | distinct counters give distinct candidate paths |
| FileManager.ResolutionIsUnique | services/file_manager.py:73-97 | the resolved path is determined by the existing paths and the requested path |
| FileManager.ResolutionKeepsDirectoryAndExtension | services/file_manager.py:87-97 | the resolved path is free and keeps the directory and the extension |
| FileManager.FirstCollisionsCountFromOne | services/file_manager.py:91-95 | when only the path exists the counter is 1; when that candidate exists too it is 2 |
| FileManager.ResolutionIsNamedAfter | services/file_manager.py:73-97 | a resolved path is the requested path or one of its counter-suffixed candidates, whatever paths exist |
| FileManager.HandleDuplicateFilename | services/file_manager.py:73-97 | returns the path itself when it is free, otherwise the candidate with the smallest free counter from 1, never an existing path, after at most as many tries as there are existing paths |
| FileManager.FileSystem.CreateCategoryDirectory | services/file_manager.py:59-71 | returns `join(target_dir, category)` and adds it to the directories; an existing directory is harmless |
| FileManager.FileSystem.Move | services/file_manager.py:51-57 | a missing source changes nothing; otherwise the file is renamed to the free target with its contents kept |
| FileManager.FileSystem.MoveFileToCategory | services/file_manager.py:21-57 | succeeds exactly when the category directory can be made and the file exists; the file then ends at the resolved collision-free path in `join(target_dir, category)` under its own base name and the directory is added; a failure leaves the files unchanged and adds the directory only when its creation succeeded; other files are never touched |
| FileScanner.Scanner.constructor | scanners/file_scanner.py:12-20 | a missing or empty allow-list falls back to the five default extensions |
| FileScanner.Scanner.ScanBooks | scanners/file_scanner.py:22-42 | returns the joined paths of the listing's book entries; a failed listing gives nothing |
| FileScanner.BookEntriesMembers | scanners/file_scanner.py:35-38 | an entry is kept exactly when it is a regular file whose lower-cased extension is in the allow-list |
| FileScanner.BookEntriesKeepListingOrder | scanners/file_scanner.py:33-38 | the kept entries are a subsequence of the listing |
| FileScanner.UpperCaseExtensionsNeverMatch | scanners/file_scanner.py:36-37 | allow-list entries holding an upper-case letter change nothing that is kept |
| FileScanner.Scanner.GetExistingCategories | scanners/file_scanner.py:44-62 | returns the listing's category names in order; a failed listing gives nothing |
| FileScanner.CategoryNamesMembers | scanners/file_scanner.py:56-58 | a name is returned exactly when some entry is a directory of that name other than the uncategorised folder |
| FileScanner.CategoryNamesKeepListingOrder | scanners/file_scanner.py:56-58 | the category names are a subsequence of the listed names |
| ConfigManager.JoinSplit | config/config_manager.py:71 | splitting a key at dots and joining the pieces again gives back the key |
| ConfigManager.SplitJoin | config/config_manager.py:71 | splitting dot-free pieces joined with dots gives back the pieces |
| ConfigManager.WalkIsResolveOrDefault | config/config_manager.py:72-79 | the walk returns the value reached, or the default as soon as a segment is missing or a value is not a dictionary |
| ConfigManager.ResolveSegmentBySegment | config/config_manager.py:73-78 | resolving one more segment is one dictionary step from the value reached so far |
| ConfigManager.DottedKeyWalksSegments | config/config_manager.py:71-79 | a dotted key walks its segments and returns the value reached or the default |
| ConfigManager.PlainKeyIsTopLevel | config/config_manager.py:80 | a key without dots is a plain top-level lookup with the default |
| ConfigManager.Config.constructor | config/config_manager.py:13-41 | a loaded document becomes the configuration; a missing file or a YAML error gives the default configuration |
| ConfigManager.Config.LoadConfig | config/config_manager.py:23-41 | the same choice when the file is reloaded |
| ConfigManager.Config.Get | config/config_manager.py:61-80 | the loop over the segments computes the dotted-key lookup |
| ConfigManager.Config.GetDeepseekApiUrl | config/config_manager.py:82-88 | the configured API URL, or None (null) when the key is absent; the AttributeError (None) when the configuration is not a dictionary |
| ConfigManager.Config.GetBatchMaxSize | config/config_manager.py:102-108 | the configured batch size, or 50 when the key is absent; the AttributeError (None) when the configuration is not a dictionary |
| ConfigManager.Config.GetBookExtensions | config/config_manager.py:110-116 | the configured extension list, or the five default extensions when the key is absent; the AttributeError (None) when the configuration is not a dictionary |
| ConfigManager.Config.GetUncatFolder | config/config_manager.py:118-124 | the configured uncategorised folder name, or 其他 when the key is absent; the AttributeError (None) when the configuration is not a dictionary |
| ConfigManager.Config.GetDeepseekApiKey | config/config_manager.py:90-100 | a non-empty environment variable wins; otherwise the configured key, falling back to the empty string; the AttributeError (None) when the configuration is not a dictionary |
| ConfigManager.Config.GetDefaultSrcDir | config/config_manager.py:137-143 | the nested `default_paths.src_dir` value, or the built-in default |
| ConfigManager.Config.GetDefaultTargetDir | config/config_manager.py:145-151 | the nested `default_paths.target_dir` value, or the built-in default |
| ConfigManager.GetDatabasePath | config/config_manager.py:126-135 | the database path starts with the target directory and ends with `book_classification.db` |
| ConfigManager.DatabasePathInTargetDir | config/config_manager.py:126-135 | the database file `book_classification.db` sits directly in the target directory |
| ConfigManager.DefaultConfig | config/config_manager.py:43-59 | the default configuration holds exactly the API URL, API key, batch size, extension list, uncategorised folder and default paths keys, the last with exactly a source and a target directory |
| ConfigManager.DefaultConfigGetters | config/config_manager.py:102-124 | with the default configuration, batch size 50, uncategorised folder 其他, the five extensions and the default API URL |
| ConfigManager.DefaultConfigPaths | config/config_manager.py:43-59 | with the default configuration, the default source and target directories |
| AICategorization.FindObject | services/ai_categorization_service.py:182-191 | finds a `{`..`}` span with no brace inside, the leftmost such span, and finds nothing only when none exists |
| AICategorization.Salvage | services/ai_categorization_service.py:178-191 | no brace span gives `{}`; a non-empty result is the decoded leftmost brace span |
| AICategorization.ParseResponse | services/ai_categorization_service.py:153-195 | an undecodable response is salvaged; only a decodable response can raise; a response decoding to `{}` yields `{}` |
| AICategorization.EnvelopeContentIsResult | services/ai_categorization_service.py:162-176 | a well-formed envelope whose content decodes yields that decoded value |
| AICategorization.MissingChoicesGivesEmpty | services/ai_categorization_service.py:165-167 | missing or empty `choices` yields `{}` |
| AICategorization.BlankContentGivesEmpty | services/ai_categorization_service.py:171-173 | blank content yields `{}` |
| AICategorization.UndecodableResponseIsSalvaged | services/ai_categorization_service.py:178-191 | an undecodable response yields the decoded leftmost brace span, or `{}` when there is none or it does not decode |
| AICategorization.UndecodableContentSalvagesResponse | services/ai_categorization_service.py:175-191 | undecodable content salvages from the whole response text, not from the content |
| AICategorization.ChoiceWithoutMessageGivesEmpty | services/ai_categorization_service.py:169-195 | a first choice without `message` is a KeyError, which yields `{}` |
| AICategorization.MessageWithoutContentGivesEmpty | services/ai_categorization_service.py:169-195 | a message without `content` is a KeyError, which yields `{}` |
| AICategorization.ObjectChoicesGiveEmpty | services/ai_categorization_service.py:169-195 | `choices` that is a non-empty object has no key 0, a KeyError, which yields `{}` |
| AICategorization.NumberDocumentRaises | services/ai_categorization_service.py:162-165 | a response document that is a number raises out of parsing, which the retry loop catches |
| AICategorization.Decide | services/ai_categorization_service.py:94-149 | a 429 always retries after 5 seconds; a payload error waits 2 × (attempt + 1) seconds and any other failure 2 seconds; every failure before the last attempt retries and, except a 429, the last attempt returns; a 200 with a non-empty parsed body returns that value |
| AICategorization.Run | services/ai_categorization_service.py:91-151 | never more than three attempts |
| AICategorization.SleepsBetweenAttempts | services/ai_categorization_service.py:94-151 | one delay per attempt that did not return |
| AICategorization.TotalSleepAtMost | services/ai_categorization_service.py:120-149 | the total sleep is bounded by 5 seconds per remaining attempt |
| AICategorization.FirstReturnWins | services/ai_categorization_service.py:104-114 | the first attempt that returns decides the result, and no further attempt is made |
| AICategorization.SuccessfulResponseReturns | services/ai_categorization_service.py:104-114 | the first 200 with a non-empty body returns its parsed value immediately |
| AICategorization.RateLimitedThenAnswered | services/ai_categorization_service.py:120-123 | a 429 followed by an answer sleeps 5 seconds once and returns the answer on the second attempt |
| AICategorization.PayloadErrorsBackOff | services/ai_categorization_service.py:136-141 | three payload errors wait 2 then 4 seconds and give `{}` after three attempts |
| AICategorization.TimeoutsGiveUpAfterThree | services/ai_categorization_service.py:129-134 | three timeouts wait 2 seconds twice and give `{}` after three attempts |
| AICategorization.ClassifyWithDeepseek | services/ai_categorization_service.py:91-151 | the attempt loop computes the retry policy's result, delays and attempt count |
| AICategorization.ClassifyBooks | services/ai_categorization_service.py:27-43 | an empty title list returns `{}` with no attempt; otherwise the retry policy |
| BookSort.GetFilenameFromPath | book_sort.py:234-244 | the file name is a separator-free suffix of the path |
| BookSort.FilenameOfJoinedPath | book_sort.py:234-244 | the file name of a scanned `join(dir, name)` is `name` |
| BookSort.BatchOf | book_sort.py:166 | the batch is the first min(batch size, pending) pending paths, in order |
| BookSort.RemoveAll | book_sort.py:216 | the remaining pending list is never longer than the pending list, and strictly shorter when its first path was processed |
| BookSort.RemoveAllMembers | book_sort.py:216 | the remaining pending list holds exactly the pending paths that are not in the batch |
| BookSort.RemoveAllAppend | book_sort.py:216 | removing paths distributes over concatenation |
| BookSort.RemovePrefixLeavesSuffix | book_sort.py:166-216 | on a duplicate-free pending list, removing the batch leaves `pending[batch_size:]` |
| BookSort.NextTask | book_sort.py:209-216 | one commit keeps id and total and, with a positive batch size, strictly shortens the pending list |
| BookSort.NextTaskKeepsConsistent | book_sort.py:208-224 | one commit moves the batch from pending to completed, adds its length to processed, and keeps the ledger invariants |
| BookSort.DrainCompletes | book_sort.py:147-224 | committing batches until nothing is pending completes every file in order and keeps the ledger invariants |
| BookSort.CommitsIsCeiling | book_sort.py:147-224 | the number of commits is ceil(pending / batch size) |
| BookSort.ZeroBatchMakesNoProgress | book_sort.py:166-216 | with batch size 0 an unfinished task never changes, so the loop would not end |
| BookSort.CreatedTaskDrainsCompletely | book_sort.py:97-130 | a freshly created task finishes with every scanned file completed after ceil(files / batch size) commits |
| BookSort.LookupCategory | book_sort.py:187 | the category is the oracle's string for the base name, the uncategorised folder when the name is absent, and an error when the result or the value has the wrong shape |
| BookSort.EmptyResultsUseUncategorised | book_sort.py:187 | an empty oracle result sends every file to the uncategorised folder |
| BookSort.Controller.constructor | book_sort.py:29-51 | the controller keeps its components and settings |
| BookSort.Controller.ProcessFile | book_sort.py:183-206 | a looked-up file is moved exactly when its category directory can be made and the file exists; it then sits at the collision-free path in `join(target_dir, category)`, the directory is added, and its record (new, built from the moved file, or the existing one) is tagged with the category (`PlacedAt`); a failed lookup changes nothing, a failed move changes no file and no record; no other file or record changes |
| BookSort.Controller.ProcessBatch | book_sort.py:183-206 | every path of the batch is listed as completed, in batch order, whatever happened to it; each path that moved went under the category directory it looked up, which exists afterwards, with a name resolved from its own, and its record ends tagged with that category (`Placed`); a moved file is still at its destination unless that is itself a batch path (`Present`); every new path is a destination (`Arrived`); a path present at the start, not repeated earlier in the batch, moves whenever its category directory name is non-empty, is not a file at the start and is no earlier destination (`Succeeded`); files outside the batch and records whose name no batch path has are untouched and no such record is added (`Kept`, `BooksOutside`); no directory disappears and the only directories added are the category directories of the batch's paths (`DirsWithin`) |
| BookSort.Controller.ProcessNextBatch | book_sort.py:147-224 | stops exactly for a missing or finished task; a commit applies the next ledger step to that task alone; a failed commit aborts and leaves the ledger unchanged; whenever it did not stop, the oracle's answer is that of the retry loop and every file of the first `batch_size` pending paths that moved is placed under its category with its record tagged (`Placed`), and each of those paths whose category directory can be made moves (`Succeeded`); nothing else changes: files outside the batch, the records of other names and directories other than the batch's category directories are kept, and every new file is a destination (`Kept`, `BooksOutside`, `DirsWithin`, `Arrived`, `Present`); a stop changes no task, file, record or directory |
| BookSort.Controller.ProcessClassification | book_sort.py:132-230 | on success the task equals the drained ledger after ceil(P/B) commits, each of which succeeded; a failed commit aborts with the task still on the way to that same drained ledger; other tasks never change |
| BookSort.Controller.Run | book_sort.py:53-130 | an empty scan creates no task and changes no file, record or directory; a successful run leaves the scanned files all completed; a refused creation (empty id, taken id or failed commit) leaves the ledger, the files, the records and the directories unchanged; a failed progress commit leaves the new task, alone changed, on the way to that same completed ledger |

## Left out

- HTTP transport, aiohttp sessions and timeouts are left out. Each attempt is an abstract outcome (status with body, timeout, payload error, other exception), and each `asyncio.sleep` is an emitted delay.
- `json.loads` and the OpenAI-style envelope encoding are not modelled. Decoding is an abstract partial function, and the serialised file-list columns are sequences.
- The prompt text (`_build_prompt` and the system prompt) is left out. The existing categories passed to the oracle feed only that prompt, so the model does not pass them.
- SQLAlchemy engines, sessions and the identity map are not modelled. Every read sees the latest commit, and the loop ends through the re-read pending list being empty.
- Commit failures in the record store (`get_or_create_book_info`, `update_book_category`) are not modelled. The file step treats those calls as succeeding.
- The task timestamps and the `datetime.now` task id generation are left out. The task id is a parameter.
- Console printing, argparse, `main`, `create_components`, `check_directory_access`, `init_database` and YAML file reading are left out. A loaded configuration is an input.
- Paths are exact strings in the file and directory sets: path normalisation (`a//b` against `a/b`), symbolic links and case-insensitive file systems, where `os.path.exists` in `handle_duplicate_filename` would see `A.pdf` collide with `a.pdf`, are not modelled, so no two different strings alias one file.
- `os.makedirs` creating missing parent directories is not modelled. Only the category directory itself is added.
- Lower-casing is ASCII only: `str.lower` on non-ASCII letters is not modelled.
- The percentage is a real number, not a float.
- FileScanner.Scanner.ScanBooks does not model an exception raised in the middle of the listing loop: only a failure of the listing itself is an input.
- BookSort.Controller.ProcessClassification requires a positive batch size, so a batch size of 0 or below is not modelled (the batch size is a `nat`). With 0 the source loops forever: `pending[:0]` is empty and the task never changes (`ZeroBatchMakesNoProgress`). With a negative size `pending[:size]` drops that many paths from the end, so the last paths are never processed; once no more than that many remain the batch is empty and the loop again never ends.
- BookSort.Controller.Run requires a positive batch size for the same reason (a batch size of 0 or below is not modelled). The oracle's outcomes are indexed by the batch number.
- BookSort.Controller.ProcessFile reads the record's size from the file just moved, so the stat cannot fail there; a failed stat is modelled only in `GetOrCreateBookInfo`.
- The extension computed and not used in `move_file_to_category`, and the extension list read and not used in `run`, are not modelled.
- `scan_books` and `get_existing_categories` in services/file_manager.py apply the same filters as the scanner; both are modelled by the `FileScanner` functions.
- `get_task`, `get_all_tasks` and `get_pending_tasks` in utils/task_manager.py, and `get_all_tasks` in database/database_manager.py, are plain reads of the ledger and are covered by `GetTaskById` and `GetPendingTasks`.
