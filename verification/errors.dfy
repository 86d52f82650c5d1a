/**
 * Error values and the Option/Result wrappers used for the Go functions that
 * return `(value, error)` pairs. A Go call returning a non-nil error becomes
 * `Err(e)`; the zero value Go returns beside the error is not represented.
 */
module Errors {

  datatype Option<+T> = None | Some(value: T)

  datatype Result<+T> = Ok(value: T) | Err(error: Error)

  /** The operating-system call that failed. */
  datatype IoOp = Create | Open | Read | OpenAppend | Write | Truncate

  /** Every error the storage layer can hand back to its caller. */
  datatype Error =
    | IdNotFound                      // "id not found" (ReadTodoById of both backends)
    | UpdateNotFound(id: string)      // "item with id %s not found. Updating not possible"
    | DeleteNotFound(id: string)      // "todo with ID %s not found" (CSV backend)
    | NilRepository(subject: string)  // "%s repositories must not be nil"; the facades name "todo", "todoToCreate" or "todoToDelete"
    | Io(op: IoOp)                    // a failed file-system or encoding/csv call
    | ReadingTodos(cause: Error)      // "error reading todos: %w"
    | ClearingFile(cause: Error)      // "error clearing file: %w"
    | RewritingTodos(cause: Error)    // "error rewriting todos: %w"
}
