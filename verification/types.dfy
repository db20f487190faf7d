/** The data model shared by both backends: objects and the error taxonomy. */
module Types {
  import opened Wrappers
  import opened Paths

  newtype byte = x: int | 0 <= x < 256

  /** `Data`: an owned chunk of bytes. */
  type Data = seq<byte>

  datatype ObjectType = File | Directory | Symlink | Unknown

  /** The backend-private handle an `Object` carries back into its backend. */
  datatype ObjectInternals = FileInternals | B2Internals

  datatype Object = Object(internals: ObjectInternals, objectType: ObjectType, path: ObjectPath, size: nat)

  datatype StorageErrorKind =
    | NotFound | InvalidPath | InvalidSettings | InvalidData | AccessDenied | AccessExpired
    | ConnectionFailed | ConnectionClosed | Cancelled | InternalError | OtherError

  /** A storage error: its kind, the path it concerns (NotFound and InvalidPath carry one) and a message. */
  datatype StorageError = StorageError(kind: StorageErrorKind, path: Option<ObjectPath>, message: string)

  /** The two-sided failure of a write: the data source failed, or the storage target did. */
  datatype TransferError = SourceError(source: StorageError) | TargetError(target: StorageError)

  type StorageResult<T> = Result<T, StorageError>

  /** `Poll<T>`: a stream poll either is not ready yet or yields its value. */
  datatype Poll<T> = Pending | Ready(value: T)

  function NotFoundError(path: ObjectPath): StorageError {
    StorageError(NotFound, Some(path), "")
  }

  function InvalidPathError(path: ObjectPath, message: string): StorageError {
    StorageError(InvalidPath, Some(path), message)
  }

  function Failure(kind: StorageErrorKind, message: string): StorageError {
    StorageError(kind, None, message)
  }

  /** The concatenation of a sequence of chunks. */
  function Concat(chunks: seq<Data>): Data {
    if chunks == [] then [] else chunks[0] + Concat(chunks[1..])
  }

  lemma {:induction false} ConcatAppend(a: seq<Data>, b: seq<Data>)
    ensures Concat(a + b) == Concat(a) + Concat(b)
  {
    if a == [] {
      assert a + b == b;
    } else {
      assert (a + b)[0] == a[0];
      assert (a + b)[1..] == a[1..] + b;
      ConcatAppend(a[1..], b);
    }
  }
}
