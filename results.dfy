/** Outcomes of the to-do operations: optional values and results that carry
    the exceptions the Python code raises. */
module Results {

  /** Python's `Optional[T]`: `None` or a value. */
  datatype Option<T> = None | Some(value: T)

  /** The exceptions raised by the store and the client. */
  datatype Error =
    | ValueError          // `list.remove` of a title that is not stored
    | TaskNotOnList       // `TodoList.remove_task(..., fail=True)` found nothing
    | TaskAlreadyInTodo   // `TodoList.add_task(..., fail=True)` found a duplicate

  /** A call that either returns a value or raises one of the errors above. */
  datatype Result<T> = Ok(value: T) | Err(error: Error)
}
