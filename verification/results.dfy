/** Optional values and the success-or-failure results that stand for the
    outcomes of the collaborators the card page awaits (a file read, the
    document parser, the rasteriser) and for a thrown exception. */
module Results {

  /** A value that may be absent: an unselected file, a failed parse. */
  datatype Option<+T> = None | Some(value: T)

  /** A computation that either produced a value or threw / was rejected.
      The reason for a failure is not observable by the card page beyond
      the fact that it failed, so it carries no payload. */
  datatype Result<+T> = Success(value: T) | Failure
}
