/** Optional values and the two errors the generators throw. */
module Results {
  datatype Option<+T> = None | Some(value: T)

  /** The `Error` objects thrown by the generators. */
  datatype Error =
    | TargetClassRequired   // a Pointer or Relation field without a target class
    | MissingParameters     // generateClasses called without credentials

  function Message(e: Error): string
  {
    match e
    case TargetClassRequired => "Target class is required for Pointer type"
    case MissingParameters => "Missing required parameters: appId, masterKey, serverUrl"
  }

  /** A value, or the error the source would throw instead of returning it. */
  datatype Result<+T> = Success(value: T) | Failure(error: Error)
}
