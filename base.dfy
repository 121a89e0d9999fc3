/** Status values and optional results shared by every part of the model.
    `Status` stands for tensorflow::Status, `StatusOr<T>` for StatusOr<T>,
    and `Option<T>` for a pointer that may be null. */
module Base {

  datatype Option<T> = None | Some(value: T)

  /** The error codes the cache itself produces; `Collaborator` carries
      whatever code a foreign component (compiler, builder, loader) reports. */
  datatype Code = InvalidArgument | DataLoss | Collaborator(code: nat)

  datatype Status = Ok | Error(code: Code, message: string)

  datatype StatusOr<T> = Value(value: T) | Failure(code: Code, message: string) {

    /** The status part alone, as `StatusOr::status()` gives it. */
    function StatusOf(): (s: Status)
      ensures s.Ok? <==> Value?
      ensures Failure? ==> s == Error(code, message)
    {
      if Value? then Ok else Error(code, message)
    }
  }
}
