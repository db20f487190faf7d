/**
 * The request validation of the cloud-fs front end (cloud-fs/src/lib.rs: `Fs::check_path` and
 * the public entry points). A path is judged by four properties; an entry point either rejects
 * the request with the validator's error, never reaching the backend, or forwards it unchanged.
 */
module CloudFs {
  import opened Wrappers
  import Types

  /** An `FsPath`, by the properties the validator reads. Its parsing is not part of this model. */
  datatype FsPath = FsPath(text: string, absolute: bool, directory: bool, windows: bool)

  /** The validator's error: an invalid path and why. */
  datatype FsError = InvalidPath(path: FsPath, message: string)

  const NotAbsolute := "Requests must use an absolute path."
  const NeedsDirectory := "This request requires the path to a directory."
  const NeedsFile := "This request requires the path to a file."
  const HasWindowsPrefix := "Paths should not include windows prefixes."

  /**
   * `check_path`: the checks run in order (absolute, directory when one is required, file when
   * one is required, no windows prefix) and the first that fails names the error.
   */
  function CheckPath(path: FsPath, shouldBeDir: bool): (r: Result<(), FsError>)
    ensures r.Ok? <==> path.absolute && path.directory == shouldBeDir && !path.windows
    ensures r.Err? ==> r.error.path == path
    ensures !path.absolute ==> r == Err(InvalidPath(path, NotAbsolute))
    ensures path.absolute && path.directory != shouldBeDir ==>
      r == Err(InvalidPath(path, if shouldBeDir then NeedsDirectory else NeedsFile))
    ensures path.absolute && path.directory == shouldBeDir && path.windows ==> r == Err(InvalidPath(path, HasWindowsPrefix))
  {
    if !path.absolute then Err(InvalidPath(path, NotAbsolute))
    else if shouldBeDir && !path.directory then Err(InvalidPath(path, NeedsDirectory))
    else if !shouldBeDir && path.directory then Err(InvalidPath(path, NeedsFile))
    else if path.windows then Err(InvalidPath(path, HasWindowsPrefix))
    else Ok(())
  }

  /** A windows prefix is refused however the earlier checks come out, and so is a relative path. */
  lemma OnlyCleanPathsPass(path: FsPath, shouldBeDir: bool)
    ensures path.windows ==> CheckPath(path, shouldBeDir).Err?
    ensures CheckPath(path, shouldBeDir).Ok? ==> CheckPath(path, !shouldBeDir).Err?
  {
  }

  /** What an entry point does with a request: rejects it, or hands it to the backend. */
  datatype Dispatch<T> = Rejected(error: FsError) | Forwarded(request: T)

  /** The operations of the front end, each with what it hands to the backend. */
  datatype Operation = ListFiles | GetFile | GetFileStream | DeleteFile | WriteFromStream

  /** `list_files` wants a directory; every other entry point wants a file. */
  function WantsDirectory(op: Operation): (b: bool)
    ensures b <==> op == ListFiles
  {
    op.ListFiles?
  }

  /**
   * An entry point other than `write_from_stream`: the backend sees the path only when it
   * passes validation.
   */
  function Submit(op: Operation, path: FsPath): (r: Dispatch<FsPath>)
    requires op != WriteFromStream
    ensures r.Forwarded? <==> CheckPath(path, op == ListFiles).Ok?
    ensures r.Forwarded? ==> r.request == path
    ensures r.Rejected? ==> Err(r.error) == CheckPath(path, op == ListFiles)
  {
    match CheckPath(path, WantsDirectory(op))
    case Err(e) => Rejected(e)
    case Ok(_) => Forwarded(path)
  }

  /** `map_ok(Bytes::from_buf)`: each buffer becomes its bytes; errors and order are kept. */
  function BuffersToBytes<B, E>(items: seq<Result<B, E>>, toBytes: B -> Types.Data): (r: seq<Result<Types.Data, E>>)
    ensures |r| == |items|
    ensures forall i | 0 <= i < |r| :: r[i].Ok? <==> items[i].Ok?
    ensures forall i | 0 <= i < |r| && items[i].Ok? :: r[i].value == toBytes(items[i].value)
    ensures forall i | 0 <= i < |r| && items[i].Err? :: r[i].error == items[i].error
  {
    if items == [] then []
    else
      var head: Result<Types.Data, E> := match items[0] case Ok(b) => Ok(toBytes(b)) case Err(e) => Err(e);
      var tail := BuffersToBytes(items[1..], toBytes);
      assert forall i | 1 <= i < |items| :: ([head] + tail)[i] == tail[i - 1] && items[i] == items[1..][i - 1];
      [head] + tail
  }

  /** `write_from_stream`: validated as a file path; the stream reaches the backend with its buffers as bytes. */
  function SubmitWrite<B, E>(path: FsPath, items: seq<Result<B, E>>, toBytes: B -> Types.Data)
    : (r: Dispatch<(FsPath, seq<Result<Types.Data, E>>)>)
    ensures r.Forwarded? <==> CheckPath(path, false).Ok?
    ensures r.Rejected? ==> Err(r.error) == CheckPath(path, false)
    ensures r.Forwarded? ==> r.request.0 == path && r.request.1 == BuffersToBytes(items, toBytes)
  {
    match CheckPath(path, WantsDirectory(WriteFromStream))
    case Err(e) => Rejected(e)
    case Ok(_) => Forwarded((path, BuffersToBytes(items, toBytes)))
  }

  /** The conversion keeps the written bytes: the backend receives the same errors, and each chunk's bytes in order. */
  lemma {:induction false} BuffersToBytesKeepsStream<B, E>(items: seq<Result<B, E>>, toBytes: B -> Types.Data)
    ensures Errs(BuffersToBytes(items, toBytes)) == Errs(items)
    ensures |Oks(BuffersToBytes(items, toBytes))| == |Oks(items)|
  {
    if items != [] {
      BuffersToBytesKeepsStream(items[1..], toBytes);
      assert BuffersToBytes(items, toBytes)[1..] == BuffersToBytes(items[1..], toBytes);
    }
  }
}
