/** Values shared by every part of the model: optional values, the errors the services
    throw, and a failure-compatible result type used to chain the pipeline stages. */
module Common {

  datatype Option<T> = None | Some(value: T)

  /** The six normalisation stages, in the order the pipeline runs them. */
  datatype Stage = AtInitialChars | AtBlankSpaces | AtPlusSignal | AtZerosAtLeft | AtOnlyNumbers | AtNumberOfChars

  /** The errors the services reject with. */
  datatype Error =
    | InvalidPath            // a missing, empty or non-string path
    | NotFound               // no file or directory at the full path
    | NotAFile               // the path names a directory
    | NoData                 // groupByAreaCode received a missing or empty list
    | EmptyResult(stage: Stage)  // a stage produced no item
    | NotAnObject            // writeOnFile received null, an array or a non-object

  datatype Result<T> = Success(value: T) | Failure(error: Error) {

    predicate IsFailure() {
      Failure?
    }

    function PropagateFailure<U>(): Result<U>
      requires Failure?
    {
      Failure(error)
    }

    function Extract(): T
      requires Success?
    {
      value
    }
  }
}
