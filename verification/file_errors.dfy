/** Host I/O failures and their translation into storage errors (file-store/src/backends/file.rs). */
module FileErrors {
  import opened Wrappers
  import opened Paths
  import opened Types

  datatype IoErrorKind = IoNotFound | IoPermissionDenied | IoAlreadyExists | IoOther

  /** An `io::Error`: its kind and the host's description. */
  datatype IoError = IoError(kind: IoErrorKind, reason: string)

  /**
   * `get_storage_error`: a host "not found" becomes NotFound for the path; every other failure
   * becomes OtherError whose message names the path.
   */
  function GetStorageError(error: IoError, path: ObjectPath): (e: StorageError)
    ensures e.kind == NotFound <==> error.kind == IoNotFound
    ensures e.kind != NotFound ==> e.kind == OtherError && e.message == ToString(path) && e.path.None?
    ensures e.kind == NotFound ==> e.path == Some(path)
  {
    if error.kind == IoNotFound then NotFoundError(path) else Failure(OtherError, ToString(path))
  }
}
