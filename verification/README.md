# Todo REST backend: storage layer in Dafny

This project models the storage core of a small Go todo service (module
`todo-rest-backend`). The core has two interchangeable repositories behind
one facade:

- **Memory repository.** It keeps the todos in a slice.
- **CSV repository.** It keeps them in `data.csv` as one four-field record per
  todo: id, title, description, and the terminated flag as `true`/`false`.

Around them sit the codec between a todo and its record, a few conversion
helpers, the sort by numeric id used for listings, the factory that picks a
backend from the configured mode, and the configuration defaults.

Layout, one module per Go file, plus three shared modules:

| file | module | Go source |
|---|---|---|
| `errors.dfy` | `Errors` | the error values the layer returns; `Option`/`Result` |
| `strconv.dfy` | `Strconv` | the parts of Go's `strconv` the code calls (`FormatBool`, `ParseBool`, `Itoa`, `Atoi` with the `ParseUint` digit loop under it) |
| `todo.dfy` | `Todos` | `models/todo/todo.go` |
| `todo_seqs.dfy` | `TodoSeqs` | specification functions over a list of todos, shared by both backends |
| `files.dfy` | `Files` | the data file as the program sees it: present or not, and its records |
| `utils.dfy` | `Utils` | `models/utils/utils.go` |
| `csvrepo.dfy` | `CsvRepo` | `models/repositories/csvrepo/csvrepo.go` |
| `memrepo.dfy` | `MemRepo` | `models/repositories/memrepo/memrepo.go` |
| `repositories.dfy` | `Repositories` | `models/repositories/repository.go` |
| `factory.dfy` | `Factory` | `models/repositories/factory/factory.go` |
| `configuration.dfy` | `Configuration` | `models/configuration/configuration.go` |
| `models.dfy` | `Models` | `models/model.go` |

The modelling choices follow the Go code:

- **Classes for in-place state.** The memory repository is a class whose
  `todoStore` field its methods reassign. The data file is a class `DataFile`
  whose `rows` field is what the CSV methods append to, truncate and rewrite.
  The package variable of `model.go` is the field of the class `Model`.
- **I/O failures are nondeterministic.** Every operating-system call can fail
  for reasons outside the program, so each `DataFile` method may fail. Every
  contract says what holds in both cases.
- **Where the code differs from what its comments and names suggest, the model
  follows the code:**
  - The CSV update and delete clear the file and re-enter every todo through
    `CreateTodo`, which gives each todo the id of its new position. Ids are
    therefore not preserved: after a delete, every later todo moves down one
    place and takes the id of its new position (`CsvRepo.DeleteShiftsRows`).
    The invariant that holds is "row i has id i + 1".
  - The memory repository's `DeleteTodoById` deletes nothing. It returns the
    todo it was given.
  - The CSV delete has no `break`. It drops every todo with the id and returns
    the last one it saw.
  - `models/repositories/repository.go` declares no `DeleteTodoById`. The call
    at `models/model.go:100` therefore does not type-check as written. The
    model dispatches that call to both backends, as the facade evidently
    intends.
- **Close errors never reach a caller.** Every deferred
  `CloseFileAndHandleError` writes to a local `err` after the function's
  unnamed results have already been fixed. The model therefore has no close
  step, and `Utils.CloseFileAndHandleError` states the combining rule on its
  own.

## Model

| member | source | states |
|---|---|---|
| Strconv.FormatBool | models/todo/todo.go:16 | the text is one of Go's true spellings exactly when the flag is true, one of the false spellings otherwise |
| Strconv.ParseBool | models/utils/utils.go:73 | no error exactly for the twelve spellings Go accepts; the value is true exactly for the six true spellings, false for everything else |
| Strconv.ParseFormatBool | models/utils/utils.go:72-75 | parsing what FormatBool wrote gives the flag back without error |
| Strconv.Itoa | models/utils/utils.go:79 | a non-empty rendering that starts with '-' exactly for negative numbers and is otherwise all decimal digits |
| Strconv.ParseUint | models/model.go:80-81 | Go's left-to-right digit loop: the value never exceeds 2^64 - 1; a syntax error gives 0 and a range error gives 2^64 - 1 |
| Strconv.ParseUintValue | models/model.go:80-81 | the loop equals a definition on the text alone: a range error as soon as the leading digits exceed 64 bits, whatever follows; otherwise the value of a non-empty all-digit text, else a syntax error |
| Strconv.Atoi | models/model.go:80-81 | a syntax error gives 0; the value always lies in the int64 range; a range error gives the bound on the side of the sign |
| Strconv.AtoiMatchesReference | models/model.go:80-81 | Atoi equals a definition on the text alone: an optional sign; leading digits that exceed 64 bits give the signed bound with a range error whatever follows; otherwise an all-digit body gives its signed value, clamped to int64 with a range error outside it; anything else is a syntax error with 0 |
| Strconv.AtoiOverflowFirst | models/model.go:80-81 | digits exceeding 2^64 - 1 followed by any text read as the int64 maximum with a range error, not as a syntax error |
| Strconv.AtoiOverflowFirstNegative | models/model.go:80-81 | the same after a minus sign gives the int64 minimum with a range error |
| Strconv.AtoiItoa | models/model.go:80-81 | Atoi reads back exactly what Itoa wrote, without error, for every int64 value |
| Strconv.ItoaInjective | models/repositories/csvrepo/csvrepo.go:102 | distinct numbers have distinct renderings, so positional ids never collide |
| Todos.Serialize | models/todo/todo.go:15-18 | exactly four fields, in the order id, title, description, flag; the flag is "true" exactly when the todo is terminated, "false" otherwise |
| Todos.SerializeInjective | models/todo/todo.go:15-18 | two todos with the same record are the same todo |
| TodoSeqs.IndexOfId | models/repositories/memrepo/memrepo.go:39-43 | none exactly when no todo has the id; otherwise a position holding the id with no earlier one |
| TodoSeqs.LastIndexOfId | models/repositories/csvrepo/csvrepo.go:176-183 | none exactly when no todo has the id; otherwise a position holding the id with no later one |
| TodoSeqs.FindById | models/repositories/memrepo/memrepo.go:38-46 | found exactly when some todo has the id, and then a todo of the list with that id; otherwise the "id not found" error |
| TodoSeqs.ReplaceFirst | models/repositories/csvrepo/csvrepo.go:135-142 | same length; the first todo of the id replaced, the list unchanged when there is none |
| TodoSeqs.Without | models/repositories/csvrepo/csvrepo.go:176-183 | never longer than the list, and strictly shorter when some todo has the id |
| TodoSeqs.WithoutMembers | models/repositories/csvrepo/csvrepo.go:176-183 | the filtered list holds exactly the todos of the list whose id differs |
| TodoSeqs.WithoutAppend | models/repositories/csvrepo/csvrepo.go:176-183 | filtering a concatenation filters each part and keeps their order |
| TodoSeqs.NumberedUnique | models/repositories/csvrepo/csvrepo.go:102 | in a list where entry i has id i + 1, two entries with the same id are at the same position |
| TodoSeqs.NumberedIndex | models/repositories/csvrepo/csvrepo.go:135-142 | in such a list the first and the last todo of id k + 1 are both at position k |
| Files.DataFile.constructor | models/repositories/csvrepo/csvrepo.go:16 | a data file present or absent with the given records; an absent file holds no records |
| Files.DataFile.Stat | models/utils/utils.go:12-18 | reports whether the file is present |
| Files.DataFile.Create | models/repositories/csvrepo/csvrepo.go:32-35 | success leaves a present, empty file; failure changes nothing |
| Files.DataFile.OpenRead | models/repositories/csvrepo/csvrepo.go:47-50 | an absent file cannot be opened; any failure is an open error |
| Files.DataFile.ReadRecord | models/repositories/csvrepo/csvrepo.go:58-65 | the record at the reader's position, end of data exactly past the last record, or a read error |
| Files.DataFile.OpenAppend | models/repositories/csvrepo/csvrepo.go:96-99 | success leaves the file present with its records; failure changes nothing |
| Files.DataFile.Append | models/repositories/csvrepo/csvrepo.go:104-108 | success adds the record at the end and keeps the others; failure keeps every record |
| Files.DataFile.Truncate | models/utils/utils.go:67-69 | fails on an absent file; success leaves the file present and empty; failure changes nothing |
| Utils.ToBool | models/utils/utils.go:72-75 | true exactly for Go's true spellings; every other text, even one ParseBool rejects, reads as false |
| Utils.ToBoolFormatBool | models/utils/utils.go:72-75 | ToBool reads back the flag FormatBool wrote |
| Utils.IntToString | models/utils/utils.go:78-81 | Atoi reads the text back as the same number for every int64 value; the sign is the number's sign |
| Utils.CloseFileAndHandleError | models/utils/utils.go:57-64 | an earlier error is kept even when the close fails; a successful close keeps the error as it was; a close error is recorded only when there was none |
| Utils.GetLineCount | models/utils/utils.go:30-54 | 0 for an absent file; otherwise the number of records, or an open or read error |
| CsvRepo.ParseTodoData | models/repositories/csvrepo/csvrepo.go:115-123 | fields 0 to 2 become id, title and description verbatim; terminated exactly when field 3 is a true spelling |
| CsvRepo.ParseSerialize | models/repositories/csvrepo/csvrepo.go:115-123 | decoding a serialized todo gives the todo back |
| CsvRepo.SerializeParse | models/repositories/csvrepo/csvrepo.go:115-123 | encoding a decoded record gives the record back when its flag is "true" or "false" |
| CsvRepo.RenumberedWellNumbered | models/repositories/csvrepo/csvrepo.go:155-160 | the rows the rewrite loop produces are numbered 1, 2, ...; its prefixes are the rewrites of the prefixes |
| CsvRepo.ParseAllNumbered | models/repositories/csvrepo/csvrepo.go:46-70 | reading a numbered file gives todos with ids 1, 2, ... |
| CsvRepo.RenumberedParseAll | models/repositories/csvrepo/csvrepo.go:155-160 | rewriting the todos read from a numbered file reproduces the file |
| CsvRepo.RenumberedReplaced | models/repositories/csvrepo/csvrepo.go:155-160 | rewriting with entry k replaced by a todo of id k + 1 changes row k only |
| CsvRepo.UpdateRewritesOneRow | models/repositories/csvrepo/csvrepo.go:126-163 | in a numbered file, a successful update of id k + 1 replaces row k by the update with that id and leaves every other row as it was |
| CsvRepo.WithoutAbsent | models/repositories/csvrepo/csvrepo.go:176-183 | the filter keeps the whole list when no todo has the id |
| CsvRepo.WithoutSingle | models/repositories/csvrepo/csvrepo.go:176-183 | when exactly one todo has the id, the filter removes exactly that position |
| CsvRepo.WithoutNumbered | models/repositories/csvrepo/csvrepo.go:176-183 | in a numbered file, the filter for id k + 1 removes exactly position k |
| CsvRepo.DeleteShiftsRows | models/repositories/csvrepo/csvrepo.go:164-203 | in a numbered file, a successful delete of id k + 1 keeps rows before k, and every later row moves down one place and takes the id of its new position |
| CsvRepo.CreateKeepsNumbering | models/repositories/csvrepo/csvrepo.go:102 | create keeps a numbered file numbered |
| CsvRepo.UpdateKeepsNumbering | models/repositories/csvrepo/csvrepo.go:155-160 | update keeps a numbered file numbered, and leaves any file numbered when it succeeds |
| CsvRepo.DeleteKeepsNumbering | models/repositories/csvrepo/csvrepo.go:195-200 | delete keeps a numbered file numbered, and leaves any file numbered when it succeeds |
| CsvRepo.TraceWellNumbered | models/repositories/csvrepo/csvrepo.go:23-203 | starting from an empty or absent file, after any sequence of Initialize, CreateTodo, UpdateTodoById and DeleteTodoById calls, failed ones included, row i has id i + 1 |
| CsvRepo.SplitOff | models/repositories/csvrepo/csvrepo.go:172-183 | the remaining todos are the filter of the list; found exactly when some todo has the id; the todo kept is the last one of the id, the empty todo when there is none |
| CsvRepo.CsvFileTodoRepository.constructor | models/repositories/csvrepo/csvrepo.go:19-20 | a repository over the given data file |
| CsvRepo.CsvFileTodoRepository.Initialize | models/repositories/csvrepo/csvrepo.go:23-39 | an existing file is left as it is; an absent one is created empty, or the create error is returned and the file stays absent |
| CsvRepo.CsvFileTodoRepository.ReadTodos | models/repositories/csvrepo/csvrepo.go:42-70 | one todo per record in file order, or an open or read error and no list at all; an absent file gives an open error |
| CsvRepo.CsvFileTodoRepository.ReadTodoById | models/repositories/csvrepo/csvrepo.go:73-87 | the first todo of the id in the file, "id not found", or a read error |
| CsvRepo.CsvFileTodoRepository.CreateTodo | models/repositories/csvrepo/csvrepo.go:90-113 | success appends exactly one record, the todo with id record count + 1, keeps the earlier records and returns that todo; failure changes nothing |
| CsvRepo.CsvFileTodoRepository.RewriteAll | models/repositories/csvrepo/csvrepo.go:155-160 | from an empty file, every todo re-entered in order with the id of its position; a failure leaves a proper prefix of those rows |
| CsvRepo.CsvFileTodoRepository.UpdateTodoById | models/repositories/csvrepo/csvrepo.go:126-163 | success means the id was present: the first todo of the id is replaced by the update carrying that id, every row is renumbered, and the update is returned; an absent id fails before the file is touched; a later failure leaves the file unchanged or a prefix of the intended rows |
| CsvRepo.CsvFileTodoRepository.DeleteTodoById | models/repositories/csvrepo/csvrepo.go:164-203 | success means the id was present: every todo of the id is dropped, the rest keep their order and are renumbered, and the last todo of the id is returned; an absent id fails before the file is touched; a later failure leaves the file unchanged or a prefix of the intended rows |
| MemRepo.StoreAfterCreate | models/repositories/memrepo/memrepo.go:49-55 | one entry longer, earlier entries unchanged, the new entry is the todo with id length + 1 |
| MemRepo.StoreAfterUpdate | models/repositories/memrepo/memrepo.go:58-70 | same length and the same ids at every position; unchanged when the id is absent; otherwise the first entry of the id becomes the update with that id and every other entry stays |
| MemRepo.UpdateAnswer | models/repositories/memrepo/memrepo.go:58-70 | the update carrying the id exactly when the id is present, the "not found" error naming the id otherwise |
| MemRepo.Clone | models/repositories/memrepo/memrepo.go:27-35 | the copy equals the store entry by entry |
| MemRepo.MemoryTodoRepository.constructor | models/repositories/factory/factory.go:21 | a new repository has an empty store |
| MemRepo.MemoryTodoRepository.Initialize | models/repositories/memrepo/memrepo.go:17-20 | the store is empty and no error is returned |
| MemRepo.MemoryTodoRepository.ReadTodos | models/repositories/memrepo/memrepo.go:23-25 | the store, entry by entry, never an error; the store is not changed |
| MemRepo.MemoryTodoRepository.ReadTodoById | models/repositories/memrepo/memrepo.go:38-46 | the first entry of the id, or "id not found" |
| MemRepo.MemoryTodoRepository.CreateTodo | models/repositories/memrepo/memrepo.go:49-55 | the todo with id length + 1 is appended and returned |
| MemRepo.MemoryTodoRepository.UpdateTodoById | models/repositories/memrepo/memrepo.go:58-70 | the store becomes StoreAfterUpdate of the old store and the answer is UpdateAnswer: an absent id changes nothing |
| MemRepo.MemoryTodoRepository.DeleteTodoById | models/repositories/memrepo/memrepo.go:72-74 | returns the todo it was given and never changes the store |
| MemRepo.StoreAfterNumbered | models/repositories/memrepo/memrepo.go:51 | create, update and delete keep a store numbered 1, 2, ... |
| MemRepo.ReplayNumbered | models/repositories/memrepo/memrepo.go:17-74 | after Initialize and any sequence of create, update and delete, entry i has id i + 1 |
| MemRepo.UpdateNumbered | models/repositories/memrepo/memrepo.go:58-67 | in a numbered store, updating id k + 1 changes entry k only |
| Configuration.Lookup | models/configuration/configuration.go:24 | the mapped value, or the empty string for a missing key |
| Configuration.GetRepositoryMode | models/configuration/configuration.go:18-30 | a read error is passed on; otherwise a non-empty mode: the configured one verbatim, "mem" when it is empty or missing |
| Configuration.PortDefaultText | models/configuration/configuration.go:46 | the default port renders as "8080" |
| Configuration.GetBackendHostUrl | models/configuration/configuration.go:38-52 | a read error is passed on; otherwise ":" followed by the configured port, ":8080" when it is empty or missing |
| Factory.GetTodoRepositoryInstance | models/repositories/factory/factory.go:12-30 | a configuration error is passed on and otherwise there is always a repository; it is the CSV backend exactly when the mode is "csv", and otherwise a new, empty memory backend |
| Models.Model.constructor | models/model.go:34 | no repository is installed at start |
| Models.Model.SetTodoRepository | models/model.go:37-43 | nil is refused with an error and the installed repository is kept; otherwise the new one is installed without error |
| Models.Model.Initialize | models/model.go:46-51 | without a repository the error "todo repositories must not be nil" and nothing else; otherwise exactly the installed backend's Initialize outcome |
| Models.Model.ReadTodos | models/model.go:54-59 | without a repository the error "todo repositories must not be nil"; otherwise exactly the installed backend's ReadTodos answer |
| Models.Model.ReadTodoById | models/model.go:62-67 | without a repository the error "todo repositories must not be nil"; otherwise exactly the installed backend's ReadTodoById answer |
| Models.Model.CreateTodo | models/model.go:70-75 | without a repository the error "todoToCreate repositories must not be nil"; otherwise exactly the installed backend's CreateTodo outcome |
| Models.Model.UpdateTodoById | models/model.go:88-93 | without a repository the error "todo repositories must not be nil"; otherwise exactly the installed backend's UpdateTodoById outcome |
| Models.Model.DeleteTodoById | models/model.go:96-101 | without a repository the error "todoToDelete repositories must not be nil"; otherwise exactly the installed backend's DeleteTodoById outcome |
| Models.IdKey | models/model.go:80-81 | the id read as a number, 0 when it is not a number, always within the int64 range |
| Models.SwapAdjacent | models/model.go:79 | two neighbours exchanged, the multiset of todos unchanged |
| Models.InsertingStart | models/model.go:79-83 | a sorted prefix is where an insertion starts |
| Models.InsertingStep | models/model.go:79-83 | swapping past a larger key keeps the insertion invariant |
| Models.InsertingDone | models/model.go:79-83 | an insertion that meets a smaller or equal key, or the front, leaves one more entry sorted |
| Models.InsertLeft | models/model.go:79-83 | one more entry of the slice sorted by numeric id, the multiset of todos unchanged |
| Models.SortTodosAfterIdAscending | models/model.go:78-85 | the same slice is returned, sorted ascending by numeric id (0 for non-numeric ids), holding the same todos as before |
| Models.NumberedKey | models/model.go:80-81 | the numeric key of entry i of a numbered list is i + 1 |
| Models.NumberedIsSorted | models/model.go:78-85 | a list numbered 1, 2, ..., as both backends produce, is already sorted by numeric id |

## Left out

- Reading the `.env` file (godotenv) is not part of this model. Both getters
  receive the result of that read: the key/value map, or an error.
- The HTTP layer (`controllers/controller.go`, `main.go`) and the JSON response
  types in `models/model.go` are not modelled.
- `encoding/csv` quoting and escaping are not modelled. A record is its list
  of fields.
- A record with fewer than four fields makes `parseTodoData` panic. The model
  stores only four-field records (`Todos.Row`), so that case cannot arise.
- Files.DataFile.Stat: an `os.Stat` failure other than "does not exist" is not
  modelled. Neither is a directory in place of the data file (`FileExists`
  would report false for one).
- `csv.Writer.Flush` errors are not modelled. The code never checks them, so a
  failed flush would go unnoticed.
- Errors from closing a file are not modelled. The code returns unnamed
  results, so the deferred `CloseFileAndHandleError` never changes what a
  caller receives.
- Go's `strconv` package is not part of this model's sources. `Strconv` follows
  Go's own library on a 64-bit platform. `Atoi` is modelled through its general
  path (`ParseInt` over `ParseUint`). Go's fast path for texts shorter than 19
  bytes is not modelled separately, because it gives the same answers.
- `FileIsEmpty` is never called by the core and is not modelled.
- Models.SortTodosAfterIdAscending: sorts by insertion, not by Go's
  pattern-defeating quicksort. The contract states only what `sort.Slice`
  promises: sorted and a permutation. The order of todos with equal keys is
  not fixed, just as `sort.Slice` does not fix it.
- Utils.GetLineCount: a count is an unbounded natural number; Go's 64-bit
  `int` cannot overflow at any reachable file size.
- Models.NumberedIsSorted: assumes at most 2^63 - 1 todos, the largest id
  `Atoi` can read back.
- The memory store's Go distinction between a nil and an empty slice is not
  modelled. Both are the empty sequence.
- Crashes in the middle of a truncate-then-rewrite and concurrent requests are
  not modelled. The code has no synchronisation. Each contract describes one
  call running alone.
- The interface `TodoRepository` in `models/repositories/repository.go`
  becomes a datatype with one variant per backend, `Repositories.TodoRepository`.
  It has no behaviour of its own.
