/** How calls end: with a value, or in die_fatal. */
module Results {
  /** The die_fatal messages of the file system and of the path parser. */
  datatype Error =
    | NoSpace
    | InvalidPosition
    | NotFile
    | NotDirectory
    | NotFound
    | NameTooLong
    | InvalidPath
    | Incompatible
    | Internal

  datatype Result<+T> = Ok(value: T) | Fatal(error: Error) {
    predicate IsFailure() { Fatal? }

    function PropagateFailure<U>(): Result<U>
      requires Fatal?
    {
      Fatal(error)
    }

    function Extract(): T
      requires Ok?
    {
      value
    }
  }
}
