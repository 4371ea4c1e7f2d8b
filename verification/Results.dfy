/** Result values for the failures the store reports. */
module Results {
  import opened Bytes

  datatype Option<+T> = None | Some(value: T)

  /** The error kinds of the content-addressed store; message texts are not modelled. */
  datatype CasError =
    | BufferTooSmall
    | InvalidMagic
    | InvalidSectionKind(kind: byte)
    | ExtractionFailed

  datatype Result<+T> = Ok(value: T) | Err(error: CasError) {

    predicate IsFailure() {
      Err?
    }

    function PropagateFailure<U>(): Result<U>
      requires Err?
    {
      Err(error)
    }

    function Extract(): T
      requires Ok?
    {
      value
    }
  }
}
