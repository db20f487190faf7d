# file-store-rs: a Dafny model of its decision logic

file-store-rs gives asynchronous access to object storage through one API that covers a local
directory tree and Backblaze B2. A thin front end, `cloud-fs`, validates request paths before it
hands them to a backend. This project models the sequential decisions behind that API as pure
functions over immutable data, and proves what they guarantee.

- **B2 client** (`file-store/src/backends/b2.rs`):
  - the table that classifies an error reply as a storage error kind;
  - the session cache and its conditional reset;
  - the three-attempt retry when a token expires;
  - the paginated `b2_list_file_names` stream;
  - how bucket names and file names become object paths.
- **Local filesystem backend** (`file-store/src/backends/file.rs`):
  - io-error mapping and metadata-to-object typing;
  - the recursive prefix listing (`FileLister`);
  - recursive delete;
  - `get_object`, `get_file_stream`, `delete_object` and `write_file_from_stream`.

  The host filesystem is a tree of named entries, so a directory listing is an ordered sequence.
- **Chunked reading** (`file-store/src/utils.rs` `ReaderStream`, and the same policy in
  `ReadStream` of file.rs). Only the length of the read buffer is tracked. The reader is a
  sequence of read outcomes.
- **Request validation** (`cloud-fs/src/lib.rs`): `check_path` and the five entry points that
  use it.

Modules, one per file, follow that structure:

| Module | Contents |
|---|---|
| `Wrappers` | `Option` and `Result` |
| `Paths` | the object path |
| `Types` | objects, error kinds, byte data |
| `B2Errors` | error classification |
| `B2Session` | the session cache and retry |
| `B2Listing` | the paginated listing |
| `B2Paths` | B2 object paths |
| `FileErrors` | io-error mapping |
| `FsModel` | the host tree |
| `FileLister` | the recursive listing |
| `FileBackend` | the backend operations |
| `Reader` | the chunked reading |
| `CloudFs` | request validation |

External effects are parameters of the model:

- **Network calls** (`b2_authorize_account` and the B2 API calls) are oracle functions indexed
  by the call's position.
- **Asynchronous page arrival** is a schedule of `Option` values, where `None` means the page is
  not ready at that poll.
- **Write and flush faults of the host** are a `HostFaults` record.
- **The source of `ObjectPath` is not part of this model.** A path is a sequence of parts, and
  a trailing empty part marks a directory prefix. `Segments` yields the parts without that
  marker. `shift_part` prepends a part and `unshift_part` removes the first one, as in the code.

## Model

| member | source | states |
|---|---|---|
| Paths.PushPart | file-store/src/backends/file.rs:373 | pushing `""` makes a directory prefix without adding a segment; any other part adds exactly that segment and makes a non-directory path |
| Paths.UnshiftPart | file-store/src/backends/b2.rs:477 | the first part is removed and returned exactly when the path is not empty, and putting it back in front restores the parts |
| Paths.ShiftUnshift | file-store/src/backends/b2.rs:96 | removing the first part after prepending a part gives back that part and the original path |
| Paths.UnshiftShift | file-store/src/backends/b2.rs:477 | prepending the removed first part restores a non-empty path |
| Paths.Join | file-store/src/backends/b2.rs:475 | an empty second path gives back the first path; otherwise the joined path's segments are the two paths' segments in order, and it is a directory prefix iff the second path is |
| Paths.ChildStartsWithDir | file-store/src/backends/file.rs:237 | an entry pushed onto a directory path starts with that directory's prefix and is its child |
| B2Errors.GenerateError | file-store/src/backends/b2.rs:590-629 | one iff per kind: InvalidData iff the body does not parse; AccessDenied iff 401 `unauthorized`, or 401 `bad_auth_token` from `b2_authorize_account`; AccessExpired iff 401 `expired_auth_token`, or `bad_auth_token` from any other method; NotFound with the request path iff 400 `invalid_bucket_id`; InternalError iff 400 `bad_request`/`out_of_range` or 401 `unsupported`; ConnectionFailed iff 503 `bad_request`; OtherError for every other pair |
| B2Errors.BadAuthTokenDependsOnMethod | file-store/src/backends/b2.rs:601-614 | the same 401 `bad_auth_token` reply means AccessDenied from the authorization call and AccessExpired from any other method |
| B2Errors.UnavailableIsOtherUnlessBadRequest | file-store/src/backends/b2.rs:619-627 | a 503 reply with a code other than `bad_request` is OtherError |
| B2Errors.Interpret | file-store/src/backends/b2.rs:173-183 | a reply is Ok iff its status is a success and the body parses; an unparseable success body is InvalidData; a failure status is classified from the error body |
| B2Errors.ApiUrl | file-store/src/backends/b2.rs:147-149 | the URL is the host, then `/b2api/v2/`, then the method name |
| B2Session.ResetSession | file-store/src/backends/b2.rs:252-259 | the cache is emptied iff it holds a session whose token equals the given one; otherwise it is unchanged |
| B2Session.AcquireSession | file-store/src/backends/b2.rs:261-270 | authorization runs iff the cache is empty; a cached session is returned as is; a successful authorization is cached and a failed one leaves the cache empty |
| B2Session.AcquireIsCached | file-store/src/backends/b2.rs:261-270 | after a successful acquisition, the next one returns the same session without authorizing |
| B2Session.StaleResetKeepsSession | file-store/src/backends/b2.rs:252-270 | resetting with a token other than the cached session's keeps that session, and it is returned without authorizing |
| B2Session.ApiCall | file-store/src/backends/b2.rs:202-237 | at most `API_RETRIES` = 3 sends; every send before the last got AccessExpired; the first send uses the cached session if there is one, and every other send uses the session of the next authorization (the first one too when the cache is empty); the call returns the last send's result when that is not AccessExpired or when the three attempts are used up; a failed authorization ends the call with its error; afterwards the cache holds the last session used unless that session was refused as expired or no session was acquired, and then it is empty |
| B2Session.AttemptRetriesOnlyExpired | file-store/src/backends/b2.rs:222-233 | the loop tries again only after an AccessExpired reply |
| B2Session.AttemptReauthorizes | file-store/src/backends/b2.rs:209-212 | each attempt after a reset uses the session the next authorization returned |
| B2Session.AttemptResult | file-store/src/backends/b2.rs:222-233 | the loop's result is the last reply unless it stopped because authorization failed |
| B2Session.AttemptCache | file-store/src/backends/b2.rs:209-233 | the cache the loop leaves is the last session used when its reply was not AccessExpired, and empty when the last reply was AccessExpired or the handshake failed |
| B2Session.OneExpiryIsTransparent | file-store/src/backends/b2.rs:222-230 | one expired token followed by a success makes the call succeed after two sends |
| B2Session.ThreeExpiriesSurface | file-store/src/backends/b2.rs:62 | three expired tokens in a row surface as an AccessExpired error after exactly three sends |
| B2Listing.NewPager | file-store/src/backends/b2.rs:285-300 | the first page is requested with the options as given, and the buffer starts empty |
| B2Listing.FollowUp | file-store/src/backends/b2.rs:312-318 | a follow-up request equals the original options except that `start_file_name` is the previous page's `next_file_name` |
| B2Listing.PollNext | file-store/src/backends/b2.rs:306-341 | an error page is emitted at once and stops further requests; a good page's files join the buffer, and its `next_file_name` decides the next request; an emitted file is the head of the buffer after the page joined it; the stream ends only once the buffer is empty and no page is outstanding, and it does end when nothing is buffered or outstanding at entry |
| B2Listing.PollNextOutcome | file-store/src/backends/b2.rs:306-341 | when the buffer (after the page joined it) is not empty its head is emitted and removed; the poll is pending iff no page failed, the buffer is empty and a request is outstanding afterwards; the stream ends iff no page failed, the buffer is empty and no request is outstanding afterwards |
| B2Listing.LastBufferedFileEmitted | file-store/src/backends/b2.rs:332-340 | the last buffered file is emitted, not the end, even though the poll leaves the buffer empty and no request outstanding |
| B2Listing.PollPreservesInv | file-store/src/backends/b2.rs:306-341 | every poll keeps the pagination invariant relating requests, pages received and items emitted |
| B2Listing.ListFileNames | file-store/src/backends/b2.rs:303-341 | over any arrival schedule: the first request uses the options and each later one follows up on the previous page's `next_file_name`; the emitted files are a prefix of the pages' files in order, and all of them once the stream ends; the stream ends only after a page without a next name; errors are emitted exactly as they arrived; only the last page can be an error |
| B2Paths.NewObject | file-store/src/backends/b2.rs:94-116 | the object is a Directory iff the file name is a directory prefix, and a File otherwise; its size is the content length; it is a B2 object |
| B2Paths.NewObjectUnderPrefix | file-store/src/backends/b2.rs:94-116 | the backend prefix followed by the object's path gives back the bucket followed by the file name's segments |
| B2Paths.UnshiftTimes | file-store/src/backends/b2.rs:106-108 | dropping n leading parts leaves the parts from index n on |
| B2Paths.PlanBuckets | file-store/src/backends/b2.rs:475-492 | the bucket is the first part of the joined path and the file part is the rest, so prepending one to the other restores the joined path; the bucket name is left unpinned iff the joined path is a single segment that is not a directory prefix |
| B2Paths.SelectBuckets | file-store/src/backends/b2.rs:495-497 | a bucket is kept iff it was returned and its name starts with the requested bucket |
| B2Paths.ListingRequests | file-store/src/backends/b2.rs:498-505 | one listing request per kept bucket, for that bucket's id, with the file part as the name prefix and no other option set |
| B2Paths.ToObjectsOks | file-store/src/backends/b2.rs:508-509 | the listed objects are the listed file infos mapped through `new_object`, one for one and in order |
| FileErrors.GetStorageError | file-store/src/backends/file.rs:133-138 | NotFound carrying the path iff the io error is NotFound; every other io error is OtherError with the path as its message |
| FsModel.Metadata | file-store/src/backends/file.rs:83-99 | metadata is available iff the path resolves to a node that does not fail; it says directory iff the node is a directory; a file's metadata length is its data's length |
| FsModel.RemoveFile | file-store/src/backends/file.rs:69-81 | succeeds only on a file or symlink, after which the path is gone; on an existing file or symlink at a non-empty path it does succeed; a missing path fails with the lookup's error |
| FsModel.RemoveDir | file-store/src/backends/file.rs:55-67 | succeeds only on an empty directory below the root, after which the path is gone; a non-empty directory fails with directory-not-empty |
| FsModel.CreateFile | file-store/src/backends/file.rs:118-131 | on success the path holds an empty file; creating over a directory fails |
| FileLister.ObjectFor | file-store/src/backends/file.rs:154-174 | a file gives (File, its length); a directory gives (Directory, 0); other metadata gives (Symlink, 0); missing metadata gives (Unknown, 0); the object keeps the path |
| FileLister.ListObjects | file-store/src/backends/file.rs:260-300 | every listed object's path starts with the prefix |
| FileLister.WalkMatchesReference | file-store/src/backends/file.rs:192-300 | the worklist walk yields exactly the items of an independent recursive definition of the pruned traversal |
| FileLister.ListingComplete | file-store/src/backends/file.rs:260-300 | an object is listed iff it lies below the prefix's parent directory and its path starts with the prefix: nothing matching is skipped and nothing else is emitted |
| FileLister.ListingDepthOrdered | file-store/src/backends/file.rs:281-300 | a directory is listed before anything inside it, and listed paths never get shallower |
| FileBackend.GetObject | file-store/src/backends/file.rs:493-526 | a directory-prefix path is refused with InvalidPath before the filesystem is consulted; NotFound iff the metadata lookup reports not-found; any other metadata failure gives an Unknown object; a file gives a File object of its length; a directory gives a Directory object of size 0; a symlink gives a Symlink object of size 0 |
| FileBackend.GetFileStream | file-store/src/backends/file.rs:528-548 | the stream is available iff the path holds a regular file, and it carries exactly that file's bytes; a non-file gives NotFound; a metadata failure is mapped with `get_storage_error` |
| FileBackend.Collect | file-store/src/backends/file.rs:375-377 | collecting succeeds iff the listing has no error, yielding all its objects in order; otherwise it yields the first error |
| FileBackend.NonDirectories | file-store/src/backends/file.rs:378-380 | exactly the listed objects that are not directories |
| FileBackend.Directories | file-store/src/backends/file.rs:381-383 | exactly the listed objects that are directories |
| FileBackend.RemoveAll | file-store/src/backends/file.rs:385-393 | removing nothing changes nothing; a removal failure is reported as NotFound or OtherError |
| FileBackend.DeleteDirectoryWith | file-store/src/backends/file.rs:371-397 | a listing error is returned before anything is removed; on success the directory is gone |
| FileBackend.RemoveAllFirstFailure | file-store/src/backends/file.rs:385-393 | when the removals before `x` succeed and the removal of `x` fails, the whole sequence ends with that removal's error mapped by `get_storage_error` for `x`'s path, the tree left by the removals before it, and nothing after `x` removed |
| FileBackend.RemoveAllAppend | file-store/src/backends/file.rs:385-393 | removing `a` and then `b` is removing `a + b` when `a` succeeds; when `a` fails, appending `b` changes nothing |
| FileBackend.FileRemovalFails | file-store/src/backends/file.rs:385-388 | a failing removal of a non-directory ends `delete_directory` with its error, after the non-directories before it were removed and before any directory was touched |
| FileBackend.DirectoryRemovalFails | file-store/src/backends/file.rs:390-393 | a failing removal of a directory ends `delete_directory` with its error, after every non-directory and the directories before it in the removal order were removed |
| FileBackend.OwnRemovalFails | file-store/src/backends/file.rs:395-396 | when everything listed was removed but the directory itself cannot be, its removal error for the directory's path is the result, with everything below it gone |
| FileBackend.AsWrittenRemovesParentsFirst | file-store/src/backends/file.rs:381-393 | the directories are removed in listing order, so a directory comes before everything inside it |
| FileBackend.AsWrittenFailsOnNested | file-store/src/backends/file.rs:371-397 | deleting `d`, which holds `d/a`, which holds the empty `d/a/b`, fails with OtherError on `d/a` |
| FileBackend.CorrectedRemovesChildrenFirst | file-store/src/backends/file.rs:381-393 | in reversed listing order, deeper directories are removed before shallower ones |
| FileBackend.CorrectedDeletesNested | file-store/src/backends/file.rs:371-397 | with the corrected order, the same tree is deleted and `d` is gone |
| FileBackend.DeleteObject | file-store/src/backends/file.rs:550-569 | a metadata failure is returned mapped; a directory is deleted by `delete_directory` in the chosen order (as written, or corrected); an existing file or symlink is removed with success; a failing `remove_file` on a non-directory is returned mapped for the path with the tree unchanged; on success nothing remains at or below the path |
| FileBackend.DeleteObjectNested | file-store/src/backends/file.rs:550-562 | `delete_object` on `d` of the nested tree fails with OtherError on `d/a` as written, and leaves an empty root when corrected |
| FileBackend.WriteChunks | file-store/src/backends/file.rs:612-633 | on success every chunk was Ok, none hit a host fault, and the file holds what it held followed by the chunks in stream order; conversely, with no source error and no fault the copy succeeds; a SourceError carries the source's first error; with no source error every failure is a TargetError |
| FileBackend.WriteFileFromStream | file-store/src/backends/file.rs:571-665 | on success the source had no errors and reading the file back gives the chunks concatenated in order; a SourceError carries the source's first error; with no source error every failure is a TargetError; a metadata failure other than not-found is a TargetError with the target unchanged; a flush or shutdown failure makes the write fail, and when nothing was at the path and the copy succeeded the failure is exactly the flush's, else the shutdown's, as a TargetError |
| FileBackend.ClearTarget | file-store/src/backends/file.rs:589-606 | clearing the path fails only with TargetErrors; afterwards nothing is at the path; a missing entry needs nothing and any other metadata failure is the TargetError |
| FileBackend.CopyAndClose | file-store/src/backends/file.rs:608-654 | the file is created and the chunks copied, then flushed and closed; a flush failure, else a shutdown failure, is the TargetError once the copy succeeded |
| FileBackend.WriteOverUndeletable | file-store/src/backends/file.rs:590-594 | a directory at the path whose deletion fails makes the write fail with that error as a TargetError, the tree unchanged |
| FileBackend.WriteOverNested | file-store/src/backends/file.rs:590-594 | writing over `d` of the nested tree fails as written with the deletion's OtherError on `d/a`, as a TargetError |
| FileBackend.CorrectedWriteOverNested | file-store/src/backends/file.rs:571-665 | with the corrected order, writing an empty source over `d` of the nested tree succeeds and `d` reads back empty |
| FileBackend.WriteThenRead | file-store/src/backends/file.rs:571-665 | after a successful write, reading the file back gives exactly the written bytes, and it is a File of that length |
| FileBackend.SourceFailureReported | file-store/src/backends/file.rs:616-617 | a source whose first item is an error makes the write fail with that error as a SourceError |
| FileBackend.SourceErrorBeforeFault | file-store/src/backends/file.rs:612-633 | when the source reports an error after data chunks whose writes all go through, the copy stops with exactly that error as a SourceError, and the file holds what it held followed by those data chunks in order and nothing from after the error |
| FileBackend.FaultBeforeSourceError | file-store/src/backends/file.rs:612-633 | when a write fails on the host after data chunks whose writes went through and before any source error, the copy stops with the host's error mapped by `get_storage_error` as a TargetError, and the file holds what it held followed by those data chunks and nothing more |
| FileBackend.CopySourceErrorBeforeFault | file-store/src/backends/file.rs:608-633 | after the file is created, a source error before any write fault ends the copy with that SourceError, and reading the file back gives exactly the data chunks before the error |
| FileBackend.CopyFaultBeforeSourceError | file-store/src/backends/file.rs:608-633 | after the file is created, a write fault before any source error ends the copy with the mapped host error as a TargetError, and reading the file back gives exactly the data chunks before the failed write |
| FileBackend.WriteSourceErrorBeforeFault | file-store/src/backends/file.rs:571-633 | writing to a path where nothing is: a source error before any write fault makes `write_file_from_stream` fail with that SourceError, and the file reads back as the data chunks before the error |
| FileBackend.WriteFaultBeforeSourceError | file-store/src/backends/file.rs:571-633 | writing to a path where nothing is: a write fault before any source error makes `write_file_from_stream` fail with the mapped host error as a TargetError, and the file reads back as the data chunks before the failed write |
| Reader.Start | file-store/src/utils.rs:55-77 | the stream starts with a buffer of the initial size, which satisfies the buffer invariant |
| Reader.PollStream | file-store/src/utils.rs:79-98 | the poll is pending iff the reader is; a zero-byte read ends the stream; n bytes are emitted as they were read; the buffer shrinks by exactly n, and is renewed to the initial size instead when what is left is below the minimum; a read error is emitted and leaves the state unchanged; the buffer invariant is kept |
| Reader.BufferWithinBounds | file-store/src/utils.rs:65-91 | every read is offered at most the initial size and at least the smaller of the minimum and the initial size |
| Reader.ZeroMinimumRunsDry | file-store/src/utils.rs:82-91 | with a minimum of zero, a read that fills the buffer leaves a buffer of length zero, and then no non-empty read fits, so the next completed read ends the stream |
| Reader.ZeroInitialEndsAtOnce | file-store/src/utils.rs:55-80 | with an initial size of zero, the first completed read ends the stream |
| Reader.RunStream | file-store/src/utils.rs:79-98 | over any sequence of reads the invariant holds, and every emitted chunk is non-empty and at most the initial size |
| Reader.RunYieldsReaderItems | file-store/src/utils.rs:79-98 | the stream's items are exactly the reader's non-empty reads and errors, in order, up to the first zero-byte read |
| Reader.RunConcat | file-store/src/utils.rs:79-98 | the emitted chunks concatenate to the bytes the reader produced, in order |
| Reader.FileReadStream | file-store/src/backends/file.rs:316-363 | the local read stream's chunks are at most 20 MiB, and its errors are NotFound for the path or OtherError |
| Reader.FileErrorsOnly | file-store/src/backends/file.rs:354 | every read error of a file stream is NotFound for the file's path or OtherError |
| Reader.IntoDataStream | file-store/src/utils.rs:112-122 | each item keeps its place: an Ok buffer becomes the same data, and an error is converted |
| Reader.IntoDataStreamKeepsData | file-store/src/utils.rs:112-122 | the converted stream carries the same data items in the same order, and as many errors |
| CloudFs.CheckPath | cloud-fs/src/lib.rs:84-108 | Ok iff the path is absolute, its directory flag matches the requirement, and it has no windows prefix; otherwise the first failing check, in that order, names the error |
| CloudFs.OnlyCleanPathsPass | cloud-fs/src/lib.rs:100-104 | a windows-prefixed path is refused whatever else holds, and no path passes as both a file and a directory |
| CloudFs.Submit | cloud-fs/src/lib.rs:125-174 | `list_files` validates as a directory, and `get_file`, `get_file_stream` and `delete_file` as a file; the backend sees the path iff validation passes, and otherwise the caller gets the validator's error |
| CloudFs.SubmitWrite | cloud-fs/src/lib.rs:194-209 | validated as a file; the backend receives the stream only when validation passes, and then with its buffers converted to bytes |
| CloudFs.BuffersToBytes | cloud-fs/src/lib.rs:204 | each Ok buffer becomes its bytes in place, and errors are kept where they were |
| CloudFs.BuffersToBytesKeepsStream | cloud-fs/src/lib.rs:204-208 | the converted stream carries the same errors in the same order and as many data items |

## Left out

- `Limited` and `InUse` (file-store/src/utils.rs:124-196) exist only to bound concurrency with a semaphore.
- HTTP request building, TLS, JSON and base64 encoding, and reading the body in `request` are
  outside the model. The reply arrives as a status and already-parsed bodies, and a failed parse
  is `None`. The `.unwrap()` on the body read can panic, and that is not modelled.
- The `From` conversions of hyper, http and serde_json errors are outside the model, since they
  depend on library internals.
- The tokio wrappers, trace logging and `println!` calls are outside the model, and so is the
  unsafe uninitialised-buffer setup. The buffer is a length only.
- `MergedStreams`: the listing fans in through a FIFO worklist, which is one admissible
  schedule. The library's round-robin order is not modelled, and no fairness claim is made.
  Listing order results (`ListingDepthOrdered`, the delete-order lemmas) hold for this schedule.
- The unimplemented operations are outside the model because they panic: `list_directory` in
  both backends; B2 `get_object`, `get_file_stream`, `delete_object` and
  `write_file_from_stream`; and the whole cloud-fs B2 backend.
- `connect`, the builders and `TryFrom` are connection and OS setup, and are outside the model.
- Parsing `ObjectPath` and `FsPath` is outside the model. The source of `ObjectPath` is not part
  of this model, and `FsPath` is reduced to the four properties `check_path` reads.
- `get_std_path` cannot fail in the code, so its error path is absent. The conversion failure of
  the `TryInto<ObjectPath>` argument (file.rs:657-662) is outside the model, because the
  argument is already an `ObjectPath`.
- The listing ignores the failure to convert a file name from an `OsString`, because names are
  strings.
- Errors while iterating a directory's entries are outside the model. A directory that cannot
  be read yields one error item, through `LockedDir`. A node whose metadata fails
  (`BrokenNode`) is listed as an Unknown object.
- A failure of `File::open` after the metadata check in `get_file_stream` is outside the model.
  `GetFileStream` returns the file's bytes, and `Reader.FileReadStream` models how they are
  chunked.
- `RemoveDir` keeps the root of the host tree, which stands for the backend's base directory.
- Waker registration and polling that yields no progress are outside the model. A page future
  that is not ready is `None` in the schedule.
- B2Listing.ListFileNames: every schedule assumes the stream is polled again after a Pending.
  In the code (b2.rs:312-340), a page with no files and a `next_file_name` stores the follow-up
  future without polling it, and the poll returns Pending. No waker is then registered for
  that future. A task that polls this stream alone can therefore wait forever. The model does
  not represent wakers, so it cannot show this hang.
- B2Session.ApiCall: models one caller. Clones of the client share the session cache behind a
  mutex (b2.rs:143, b2.rs:349). Another caller's refresh can refill the cache between a reset
  and the next attempt. That attempt then reuses the refilled session without authorizing. So
  "every retry uses a freshly authorized session" holds for a single caller only.
- FileLister.WalkMatchesReference: compares the listing with the reference as sets. It does not
  state that each object is listed exactly once.
- FileLister.ListingComplete: states membership in both directions. It does not state that the
  listing has no repeated objects. `Named` does not require the entry names of a directory to
  be distinct, and the host guarantees that.
- Symbolic links carry no target (`SymlinkNode`). A path that goes through a symlinked
  directory fails with NotADirectory in the model. The host follows such intermediate links,
  and `read_dir` follows a link at the listing's start directory. Only the link itself is
  modelled: `symlink_metadata` reports it as a Symlink object, and `remove_file` removes it.
- Reader.PollStream: the buffer settings are taken as given. With a minimum of zero,
  `ZeroMinimumRunsDry` shows that the buffer can shrink to length zero without renewal. The
  next read then returns zero bytes, which ends the stream even if the reader had more data.
  An initial size of zero ends the stream at the first read (`ZeroInitialEndsAtOnce`).
  `RunConcat` counts that empty read as the end of data. The local backend's settings (20 MiB
  and 1 MiB) never reach a zero-length buffer.
- FileBackend.RemoveAll: its own contract states the error kinds and the empty case. The first
  failure and its effect are stated by `RemoveAllFirstFailure` and `RemoveAllAppend`, and lifted
  to `delete_directory` by `FileRemovalFails`, `DirectoryRemovalFails` and `OwnRemovalFails`. No
  lemma states for all trees that every removal succeeds; that is shown on the nested tree only.
- FileBackend.DeleteDirectory: general success of the corrected order is shown through the
  ordering lemma `CorrectedRemovesChildrenFirst` and on a concrete nested tree. There is no
  all-trees proof that removal succeeds.
- FileLister.ListingComplete: assumes the listing's start directory exists and that entry names
  are non-empty (`Named`). A missing start directory yields the single read error instead.
- Reader.PollStream: a read error is emitted as an item and does not end the stream, as the
  code does. A later poll reads again. A description that says an error terminates the stream
  disagrees with the code, and the model follows the code.

## Findings

| source | as written | input that shows it | evidently intended | confidence | as-written member | corrected member |
|---|---|---|---|---|---|---|
| file-store/src/backends/file.rs:381-393 | `delete_directory` removes directories in listing order, which lists a directory before its subdirectories, so the parent's `remove_dir` sees a non-empty directory; `delete_object` (file.rs:561) and `write_file_from_stream` (file.rs:592) inherit the failure (`DeleteObjectNested`, `WriteOverNested`) | delete `d`, where `d` holds `d/a` and `d/a` holds the empty directory `d/a/b`: the listing is `d/a`, `d/a/b`, and removing `d/a` first fails with OtherError | remove subdirectories before their parents, for example in reversed listing order, so that the whole tree is deleted; `DeleteObject` and `WriteFileFromStream` take that order when `corrected` is true (`CorrectedDeletesNested`, `CorrectedWriteOverNested`) | not executed | FileBackend.AsWrittenFailsOnNested | FileBackend.CorrectedRemovesChildrenFirst |
