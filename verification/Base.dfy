/** Small datatypes shared by every module. */
module Base {

  datatype Option<+T> = None | Some(value: T)

  /** A value, or the kind of error the Go function returns. */
  datatype Result<+T> = Ok(value: T) | Err(error: Error)

  datatype Error =
    | InvalidArgument
    | Conflict
    | NotFound
    | Constraint(name: string)
    | RevisionSpaceExhausted
    | TimestampSpaceExhausted
    | UnsealedRevision
    | CallbackFailed
    | Inactive

  /** domain.EntityID: compared and ordered as text. */
  type Id = string

  const MAX_INT64: int := 0x7fff_ffff_ffff_ffff
  const MAX_UINT64: int := 0xffff_ffff_ffff_ffff
  const MIN_INT64: int := -0x8000_0000_0000_0000

  predicate IsInt64(i: int) {
    MIN_INT64 <= i <= MAX_INT64
  }
}
