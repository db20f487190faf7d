/**
 * The local filesystem backend's operations (file-store/src/backends/file.rs, `StorageBackend for
 * FileBackend` and `delete_directory`). A backend path maps to the host path below the root by
 * its named segments; every host failure becomes a storage error for the path concerned.
 */
module FileBackend {
  import opened Wrappers
  import opened Paths
  import opened Types
  import opened FileErrors
  import opened FsModel
  import opened FileLister

  /** The host tree after an operation, and the operation's outcome. */
  datatype Effect = Effect(root: Node, result: StorageResult<()>)

  const DirPrefixMessage := "Object paths cannot be empty or end with a '/' character."

  /**
   * `get_object`: a directory prefix is refused before the host is asked; a missing entry is
   * NotFound; an entry whose metadata cannot be read is still reported, as Unknown.
   */
  function GetObject(root: Node, path: ObjectPath): (r: StorageResult<Object>)
    ensures IsDirPrefix(path) ==> r == Err(InvalidPathError(path, DirPrefixMessage))
    ensures !IsDirPrefix(path) ==> (r.Err? <==> Metadata(root, Segments(path)).Err? && Metadata(root, Segments(path)).error.kind == IoNotFound)
    ensures r.Err? && !IsDirPrefix(path) ==> r.error == NotFoundError(path)
    ensures r.Ok? ==> r.value.path == path && r.value.internals == FileInternals
    ensures r.Ok? ==> (r.value.objectType == Unknown <==> Metadata(root, Segments(path)).Err?)
    ensures forall d :: Lookup(root, Segments(path)) == Ok(FileNode(d)) && !IsDirPrefix(path) ==>
      r == Ok(Object(FileInternals, File, path, |d|))
    ensures !IsDirPrefix(path) && Metadata(root, Segments(path)) == Ok(DirMeta) ==>
      r == Ok(Object(FileInternals, Directory, path, 0))
    ensures !IsDirPrefix(path) && Lookup(root, Segments(path)) == Ok(SymlinkNode) ==>
      r == Ok(Object(FileInternals, Symlink, path, 0))
  {
    if IsDirPrefix(path) then Err(InvalidPathError(path, DirPrefixMessage))
    else
      match Metadata(root, Segments(path))
      case Ok(m) => Ok(ObjectFor(path, Some(m)))
      case Err(e) => if e.kind == IoNotFound then Err(NotFoundError(path)) else Ok(ObjectFor(path, None))
  }

  /**
   * `get_file_stream`: the bytes the stream yields (its chunking is the read stream's); only a
   * regular file can be read, anything else is NotFound.
   */
  function GetFileStream(root: Node, path: ObjectPath): (r: StorageResult<Data>)
    ensures r.Ok? <==> Lookup(root, Segments(path)).Ok? && Lookup(root, Segments(path)).value.FileNode?
    ensures r.Ok? ==> Lookup(root, Segments(path)) == Ok(FileNode(r.value))
    ensures Metadata(root, Segments(path)).Ok? && !r.Ok? ==> r == Err(NotFoundError(path))
    ensures Metadata(root, Segments(path)).Err? ==> r == Err(GetStorageError(Metadata(root, Segments(path)).error, path))
  {
    match Metadata(root, Segments(path))
    case Err(e) => Err(GetStorageError(e, path))
    case Ok(m) =>
      if !m.FileMeta? then Err(NotFoundError(path))
      else Ok(Lookup(root, Segments(path)).value.data)
  }

  /** `try_collect`: the objects of a listing, or its first error. */
  function Collect(listing: seq<StorageResult<Object>>): (r: StorageResult<seq<Object>>)
    ensures r.Ok? <==> Errs(listing) == []
    ensures r.Ok? ==> r.value == Oks(listing)
    ensures r.Err? ==> r.error == Errs(listing)[0]
  {
    if listing == [] then Ok([])
    else match listing[0]
      case Err(e) => Err(e)
      case Ok(o) => match Collect(listing[1..]) case Err(e) => Err(e) case Ok(os) => Ok([o] + os)
  }

  /** The listed objects that are not directories, in listing order. */
  function NonDirectories(objs: seq<Object>): (r: seq<Object>)
    ensures forall i | 0 <= i < |r| :: r[i].objectType != Directory && r[i] in objs
    ensures forall o | o in objs && o.objectType != Directory :: o in r
  {
    if objs == [] then []
    else (if objs[0].objectType != Directory then [objs[0]] else []) + NonDirectories(objs[1..])
  }

  /** The listed directories, in listing order. */
  function Directories(objs: seq<Object>): (r: seq<Object>)
    ensures forall i | 0 <= i < |r| :: r[i].objectType == Directory && r[i] in objs
    ensures forall o | o in objs && o.objectType == Directory :: o in r
  {
    if objs == [] then []
    else (if objs[0].objectType == Directory then [objs[0]] else []) + Directories(objs[1..])
  }

  /** Removing objects one after the other, stopping at the first failure (the loops of `delete_directory`). */
  function RemoveAll(root: Node, objs: seq<Object>, directories: bool): (r: Effect)
    ensures r.result.Err? ==> r.result.error.kind == NotFound || r.result.error.kind == OtherError
    ensures objs == [] ==> r == Effect(root, Ok(()))
    decreases |objs|
  {
    if objs == [] then Effect(root, Ok(()))
    else
      match RemoveOne(root, objs[0], directories)
      case Err(e) => Effect(root, Err(GetStorageError(e, objs[0].path)))
      case Ok(root') => RemoveAll(root', objs[1..], directories)
  }

  /** One removal of `delete_directory`: `remove_dir` for a directory, `remove_file` otherwise. */
  function RemoveOne(root: Node, obj: Object, directories: bool): (r: Result<Node, IoError>)
    ensures r.Ok? ==> Lookup(r.value, Segments(obj.path)) == Err(NoSuchEntry)
  {
    if directories then RemoveDir(root, Segments(obj.path)) else RemoveFile(root, Segments(obj.path))
  }

  /**
   * The first removal that fails ends the sequence: its error is the result, the tree is the one
   * left by the removals before it, and nothing after it is removed.
   */
  lemma {:induction false} RemoveAllFirstFailure(root: Node, done: seq<Object>, x: Object, rest: seq<Object>,
                                                 directories: bool)
    ensures RemoveAll(root, done, directories).result.Ok? &&
            RemoveOne(RemoveAll(root, done, directories).root, x, directories).Err? ==>
      RemoveAll(root, done + [x] + rest, directories) ==
        Effect(RemoveAll(root, done, directories).root,
               Err(GetStorageError(RemoveOne(RemoveAll(root, done, directories).root, x, directories).error, x.path)))
    decreases |done|
  {
    var objs := done + [x] + rest;
    if done == [] {
      assert objs[0] == x;
    } else {
      assert objs[0] == done[0];
      assert objs[1..] == done[1..] + [x] + rest;
      match RemoveOne(root, done[0], directories)
      case Err(e) =>
      case Ok(root') => RemoveAllFirstFailure(root', done[1..], x, rest, directories);
    }
  }

  /** Removals that all succeed compose: removing `a` and then `b` is removing `a + b`. */
  lemma {:induction false} RemoveAllAppend(root: Node, a: seq<Object>, b: seq<Object>, directories: bool)
    ensures RemoveAll(root, a, directories).result.Ok? ==>
      RemoveAll(root, a + b, directories) == RemoveAll(RemoveAll(root, a, directories).root, b, directories)
    ensures RemoveAll(root, a, directories).result.Err? ==> RemoveAll(root, a + b, directories) == RemoveAll(root, a, directories)
    decreases |a|
  {
    if a == [] {
      assert a + b == b;
    } else {
      assert (a + b)[0] == a[0];
      assert (a + b)[1..] == a[1..] + b;
      match RemoveOne(root, a[0], directories)
      case Err(e) =>
      case Ok(root') => RemoveAllAppend(root', a[1..], b, directories);
    }
  }

  function Reverse<T>(s: seq<T>): (r: seq<T>)
    ensures |r| == |s|
    ensures forall i | 0 <= i < |s| :: r[i] == s[|s| - 1 - i]
  {
    if s == [] then [] else Reverse(s[1..]) + [s[0]]
  }

  /** The order `delete_directory` as written removes directories in: the listing's order. */
  function AsWrittenOrder(objs: seq<Object>): seq<Object> {
    Directories(objs)
  }

  /** The corrected order: the listing's directories reversed, deepest first. */
  function CorrectedOrder(objs: seq<Object>): seq<Object> {
    Reverse(Directories(objs))
  }

  /**
   * `delete_directory` with a given order of directory removal: list everything below the
   * directory, remove the non-directories, then the directories, then the directory itself.
   */
  function DeleteDirectoryWith(root: Node, path: ObjectPath, corrected: bool): (r: Effect)
    ensures r.result.Ok? ==> Lookup(r.root, Segments(path)) == Err(NoSuchEntry)
    ensures Errs(ListObjects(root, PushPart(path, ""))) != [] ==>
      r == Effect(root, Err(Errs(ListObjects(root, PushPart(path, "")))[0]))
  {
    match Collect(ListObjects(root, PushPart(path, "")))
    case Err(e) => Effect(root, Err(e))
    case Ok(objs) =>
      var files := RemoveAll(root, NonDirectories(objs), false);
      if files.result.Err? then files
      else
        var dirs := RemoveAll(files.root, if corrected then CorrectedOrder(objs) else AsWrittenOrder(objs), true);
        if dirs.result.Err? then dirs
        else match RemoveDir(dirs.root, Segments(path))
          case Err(e) => Effect(dirs.root, Err(GetStorageError(e, path)))
          case Ok(root') => Effect(root', Ok(()))
  }

  /**
   * A removal of a non-directory that fails ends `delete_directory` with its error: the
   * non-directories before it are gone, and no directory has been touched.
   */
  lemma {:induction false} FileRemovalFails(root: Node, path: ObjectPath, corrected: bool, objs: seq<Object>,
                                            done: seq<Object>, x: Object, rest: seq<Object>)
    ensures Collect(ListObjects(root, PushPart(path, ""))) == Ok(objs) && NonDirectories(objs) == done + [x] + rest &&
            RemoveAll(root, done, false).result.Ok? && RemoveOne(RemoveAll(root, done, false).root, x, false).Err? ==>
      DeleteDirectoryWith(root, path, corrected) ==
        Effect(RemoveAll(root, done, false).root,
               Err(GetStorageError(RemoveOne(RemoveAll(root, done, false).root, x, false).error, x.path)))
  {
    RemoveAllFirstFailure(root, done, x, rest, false);
  }

  /**
   * A removal of a directory that fails ends `delete_directory` with its error: every
   * non-directory is gone, and so are the directories before it in the removal order.
   */
  lemma {:induction false} DirectoryRemovalFails(root: Node, path: ObjectPath, corrected: bool, objs: seq<Object>,
                                                 done: seq<Object>, x: Object, rest: seq<Object>)
    ensures var files := RemoveAll(root, NonDirectories(objs), false);
      Collect(ListObjects(root, PushPart(path, ""))) == Ok(objs) && files.result.Ok? &&
      (if corrected then CorrectedOrder(objs) else AsWrittenOrder(objs)) == done + [x] + rest &&
      RemoveAll(files.root, done, true).result.Ok? && RemoveOne(RemoveAll(files.root, done, true).root, x, true).Err? ==>
      DeleteDirectoryWith(root, path, corrected) ==
        Effect(RemoveAll(files.root, done, true).root,
               Err(GetStorageError(RemoveOne(RemoveAll(files.root, done, true).root, x, true).error, x.path)))
  {
    RemoveAllFirstFailure(RemoveAll(root, NonDirectories(objs), false).root, done, x, rest, true);
  }

  /**
   * When every listed entry was removed but the directory itself cannot be, that removal's
   * error is the result and the tree is the one with everything below the directory gone.
   */
  lemma OwnRemovalFails(root: Node, path: ObjectPath, corrected: bool, objs: seq<Object>)
    ensures var files := RemoveAll(root, NonDirectories(objs), false);
      var dirs := RemoveAll(files.root, if corrected then CorrectedOrder(objs) else AsWrittenOrder(objs), true);
      Collect(ListObjects(root, PushPart(path, ""))) == Ok(objs) && files.result.Ok? && dirs.result.Ok? &&
      RemoveDir(dirs.root, Segments(path)).Err? ==>
      DeleteDirectoryWith(root, path, corrected) ==
        Effect(dirs.root, Err(GetStorageError(RemoveDir(dirs.root, Segments(path)).error, path)))
  {
  }

  /** `delete_directory` as the source writes it: directories in listing order. */
  function DeleteDirectoryAsWritten(root: Node, path: ObjectPath): (r: Effect)
    ensures r.result.Ok? ==> Lookup(r.root, Segments(path)) == Err(NoSuchEntry)
  {
    DeleteDirectoryWith(root, path, false)
  }

  /** `delete_directory` with the directories removed deepest first. */
  function DeleteDirectory(root: Node, path: ObjectPath): (r: Effect)
    ensures r.result.Ok? ==> Lookup(r.root, Segments(path)) == Err(NoSuchEntry)
  {
    DeleteDirectoryWith(root, path, true)
  }

  /**
   * The as-written order removes a directory before the directories inside it: the listing is
   * ordered by depth, parents first.
   */
  lemma AsWrittenRemovesParentsFirst(root: Node, path: ObjectPath)
    requires Named(root)
    ensures Collect(ListObjects(root, PushPart(path, ""))).Ok? ==>
      var order := AsWrittenOrder(Collect(ListObjects(root, PushPart(path, ""))).value);
      forall i, j | 0 <= i < j < |order| :: Depth(order[i].path) <= Depth(order[j].path)
  {
    var listing := ListObjects(root, PushPart(path, ""));
    ListingDepthOrdered(root, PushPart(path, ""));
    OksDepthOrdered(listing);
    DirectoriesDepthOrdered(Oks(listing));
  }

  /**
   * The corrected order removes every directory before any directory that contains it: deeper
   * directories come first.
   */
  lemma CorrectedRemovesChildrenFirst(root: Node, path: ObjectPath)
    requires Named(root)
    ensures Collect(ListObjects(root, PushPart(path, ""))).Ok? ==>
      var order := CorrectedOrder(Collect(ListObjects(root, PushPart(path, ""))).value);
      forall i, j | 0 <= i < j < |order| :: Depth(order[i].path) >= Depth(order[j].path)
  {
    var listing := ListObjects(root, PushPart(path, ""));
    ListingDepthOrdered(root, PushPart(path, ""));
    OksDepthOrdered(listing);
    DirectoriesDepthOrdered(Oks(listing));
  }

  predicate ObjectsByDepth(objs: seq<Object>) {
    forall i, j | 0 <= i < j < |objs| :: Depth(objs[i].path) <= Depth(objs[j].path)
  }

  lemma {:induction false} OksDepthOrdered(r: seq<StorageResult<Object>>)
    requires DepthOrdered(r)
    ensures ObjectsByDepth(Oks(r))
  {
    if r != [] {
      DepthOrderedTail(r);
      OksDepthOrdered(r[1..]);
      var t := Oks(r[1..]);
      if r[0].Ok? {
        var n := Depth(r[0].value.path);
        assert OksAtLeastDepth(r[1..], n) by {
          forall i | 0 <= i < |r[1..]| && r[1..][i].Ok? ensures n <= Depth(r[1..][i].value.path) {
            assert r[1..][i] == r[i + 1];
          }
        }
        OksAtLeast(r[1..], n);
        assert Oks(r) == [r[0].value] + t;
        ConsByDepth(r[0].value, t);
      } else {
        assert Oks(r) == t;
      }
    }
  }

  lemma DepthOrderedTail(r: seq<StorageResult<Object>>)
    requires DepthOrdered(r) && r != []
    ensures DepthOrdered(r[1..])
  {
    forall i, j | 0 <= i < j < |r[1..]| && r[1..][i].Ok? && r[1..][j].Ok?
      ensures Depth(r[1..][i].value.path) <= Depth(r[1..][j].value.path)
    {
      assert r[1..][i] == r[i + 1] && r[1..][j] == r[j + 1];
    }
  }

  /** Every object lies at depth `n` or deeper. */
  predicate AtLeastDepth(objs: seq<Object>, n: nat) {
    forall j | 0 <= j < |objs| :: n <= Depth(objs[j].path)
  }

  /** Every listed object lies at depth `n` or deeper. */
  predicate OksAtLeastDepth(r: seq<StorageResult<Object>>, n: nat) {
    forall i | 0 <= i < |r| && r[i].Ok? :: n <= Depth(r[i].value.path)
  }

  lemma ConsAtLeastDepth(x: Object, d: seq<Object>, n: nat)
    requires n <= Depth(x.path) && AtLeastDepth(d, n)
    ensures AtLeastDepth([x] + d, n)
  {
    var e := [x] + d;
    forall j | 0 <= j < |e| ensures n <= Depth(e[j].path) {
      if j == 0 { assert e[j] == x; } else { assert e[j] == d[j - 1]; }
    }
  }

  lemma {:induction false} OksAtLeast(r: seq<StorageResult<Object>>, n: nat)
    requires OksAtLeastDepth(r, n)
    ensures AtLeastDepth(Oks(r), n)
  {
    if r != [] {
      assert OksAtLeastDepth(r[1..], n) by {
        forall i | 0 <= i < |r[1..]| && r[1..][i].Ok? ensures n <= Depth(r[1..][i].value.path) {
          assert r[1..][i] == r[i + 1];
        }
      }
      OksAtLeast(r[1..], n);
      if r[0].Ok? {
        assert Oks(r) == [r[0].value] + Oks(r[1..]);
        ConsAtLeastDepth(r[0].value, Oks(r[1..]), n);
      } else {
        assert Oks(r) == Oks(r[1..]);
      }
    }
  }

  lemma {:induction false} DirectoriesAtLeast(objs: seq<Object>, n: nat)
    requires AtLeastDepth(objs, n)
    ensures AtLeastDepth(Directories(objs), n)
  {
    if objs != [] {
      assert AtLeastDepth(objs[1..], n) by {
        forall j | 0 <= j < |objs[1..]| ensures n <= Depth(objs[1..][j].path) {
          assert objs[1..][j] == objs[j + 1];
        }
      }
      DirectoriesAtLeast(objs[1..], n);
      if objs[0].objectType == Directory {
        assert Directories(objs) == [objs[0]] + Directories(objs[1..]);
        ConsAtLeastDepth(objs[0], Directories(objs[1..]), n);
      } else {
        assert Directories(objs) == Directories(objs[1..]);
      }
    }
  }

  lemma {:induction false} DirectoriesDepthOrdered(objs: seq<Object>)
    requires ObjectsByDepth(objs)
    ensures ObjectsByDepth(Directories(objs))
  {
    if objs != [] {
      ObjectsByDepthTail(objs);
      DirectoriesDepthOrdered(objs[1..]);
      var d := Directories(objs[1..]);
      if objs[0].objectType == Directory {
        var n := Depth(objs[0].path);
        assert AtLeastDepth(objs[1..], n) by {
          forall j | 0 <= j < |objs[1..]| ensures n <= Depth(objs[1..][j].path) {
            assert objs[1..][j] == objs[j + 1];
          }
        }
        DirectoriesAtLeast(objs[1..], n);
        assert Directories(objs) == [objs[0]] + d;
        ConsByDepth(objs[0], d);
      } else {
        assert Directories(objs) == d;
      }
    }
  }

  lemma ObjectsByDepthTail(objs: seq<Object>)
    requires ObjectsByDepth(objs) && objs != []
    ensures ObjectsByDepth(objs[1..])
  {
    forall i, j | 0 <= i < j < |objs[1..]| ensures Depth(objs[1..][i].path) <= Depth(objs[1..][j].path) {
      assert objs[1..][i] == objs[i + 1] && objs[1..][j] == objs[j + 1];
    }
  }

  /** An object no deeper than any of a depth-ordered sequence can go in front of it. */
  lemma ConsByDepth(x: Object, d: seq<Object>)
    requires ObjectsByDepth(d)
    requires AtLeastDepth(d, Depth(x.path))
    ensures ObjectsByDepth([x] + d)
  {
    var e := [x] + d;
    forall i, j | 0 <= i < j < |e| ensures Depth(e[i].path) <= Depth(e[j].path) {
      assert e[j] == d[j - 1];
      if i == 0 { assert e[i] == x; } else { assert e[i] == d[i - 1]; }
    }
  }

  /**
   * `delete_object`: a directory is deleted with everything below it, anything else is removed
   * as a file; a missing entry is NotFound. The source deletes directories with
   * `delete_directory` as written (`corrected` false); `corrected` selects the deepest-first order.
   */
  function DeleteObject(root: Node, path: ObjectPath, corrected: bool): (r: Effect)
    ensures r.result.Ok? ==> forall rest :: Lookup(r.root, Segments(path) + rest) == Err(NoSuchEntry)
    ensures Metadata(root, Segments(path)).Err? ==>
      r == Effect(root, Err(GetStorageError(Metadata(root, Segments(path)).error, path)))
    ensures r.result.Err? && r.result.error.kind == NotFound && Metadata(root, Segments(path)).Err? ==>
      r.result.error == NotFoundError(path)
    ensures Metadata(root, Segments(path)) == Ok(DirMeta) ==> r == DeleteDirectoryWith(root, path, corrected)
    ensures Segments(path) != [] && Lookup(root, Segments(path)).Ok? &&
            (Lookup(root, Segments(path)).value.FileNode? || Lookup(root, Segments(path)).value.SymlinkNode?) ==>
      r == Effect(RemoveFile(root, Segments(path)).value, Ok(()))
    ensures Metadata(root, Segments(path)).Ok? && Metadata(root, Segments(path)).value != DirMeta &&
            RemoveFile(root, Segments(path)).Err? ==>
      r == Effect(root, Err(GetStorageError(RemoveFile(root, Segments(path)).error, path)))
  {
    var segs := Segments(path);
    var r := match Metadata(root, segs)
      case Err(e) => Effect(root, Err(GetStorageError(e, path)))
      case Ok(m) =>
        if m == DirMeta then DeleteDirectoryWith(root, path, corrected)
        else match RemoveFile(root, segs)
          case Err(e) => Effect(root, Err(GetStorageError(e, path)))
          case Ok(root') => Effect(root', Ok(()));
    if r.result.Ok? then
      assert forall rest :: Lookup(r.root, segs + rest) == Err(NoSuchEntry) by {
        forall rest ensures Lookup(r.root, segs + rest) == Err(NoSuchEntry) {
          LookupBelowFailure(r.root, segs, rest);
        }
      }
      r
    else r
  }

  /** The outcome of a write: the host tree afterwards and the transfer's result. */
  datatype WriteEffect = WriteEffect(root: Node, result: Result<(), TransferError>)

  /**
   * What the host does with the writes of one transfer: `faults` maps the index of an item of
   * the source stream to the error its write fails with; flushing and closing may fail too.
   */
  datatype HostFaults = HostFaults(faults: map<nat, IoError>, flush: Option<IoError>, shutdown: Option<IoError>)

  /**
   * The copy loop of `write_file_from_stream`: each chunk is appended to the open file in
   * order; a source error stops the copy as a SourceError, a failed write (the chunk's index in
   * `faults`) as a TargetError.
   */
  function WriteChunks(root: Node, path: ObjectPath, chunks: seq<StorageResult<Data>>, index: nat,
                       written: Data, faults: map<nat, IoError>): (r: WriteEffect)
    requires Lookup(root, Segments(path)) == Ok(FileNode(written))
    ensures r.result.Ok? ==> Errs(chunks) == [] && NoFaults(faults, index, index + |chunks|)
    ensures r.result.Ok? ==> Lookup(r.root, Segments(path)) == Ok(FileNode(written + Concat(Oks(chunks))))
    ensures Segments(path) != [] && Errs(chunks) == [] && NoFaults(faults, index, index + |chunks|) ==> r.result.Ok?
    ensures r.result.Err? && r.result.error.SourceError? ==> Errs(chunks) != [] && r.result.error.source == Errs(chunks)[0]
    ensures r.result.Err? && Errs(chunks) == [] ==> r.result.error.TargetError?
  {
    WriteLoopFacts(root, path, chunks, index, written, faults);
    WriteLoop(root, path, chunks, index, written, faults)
  }

  /** The steps of the copy loop, one chunk at a time; `WriteChunks` states what they add up to. */
  function WriteLoop(root: Node, path: ObjectPath, chunks: seq<StorageResult<Data>>, index: nat,
                     written: Data, faults: map<nat, IoError>): WriteEffect
    decreases |chunks|
  {
    if chunks == [] then WriteEffect(root, Ok(()))
    else match chunks[0]
      case Err(e) => WriteEffect(root, Err(SourceError(e)))
      case Ok(data) =>
        if index in faults then WriteEffect(root, Err(TargetError(GetStorageError(faults[index], path))))
        else match SetFile(root, Segments(path), written + data)
          case Err(e) => WriteEffect(root, Err(TargetError(GetStorageError(e, path))))
          case Ok(root') => WriteLoop(root', path, chunks[1..], index + 1, written + data, faults)
  }

  /** The copy loop succeeds exactly without source errors and write faults, and keeps the first source error. */
  lemma {:induction false} WriteLoopFacts(root: Node, path: ObjectPath, chunks: seq<StorageResult<Data>>, index: nat,
                                          written: Data, faults: map<nat, IoError>)
    requires Lookup(root, Segments(path)) == Ok(FileNode(written))
    ensures var r := WriteLoop(root, path, chunks, index, written, faults);
      && (r.result.Ok? ==> Errs(chunks) == [] && NoFaults(faults, index, index + |chunks|))
      && (r.result.Ok? ==> Lookup(r.root, Segments(path)) == Ok(FileNode(written + Concat(Oks(chunks)))))
      && (Segments(path) != [] && Errs(chunks) == [] && NoFaults(faults, index, index + |chunks|) ==> r.result.Ok?)
      && (r.result.Err? && r.result.error.SourceError? ==> Errs(chunks) != [] && r.result.error.source == Errs(chunks)[0])
      && (r.result.Err? && Errs(chunks) == [] ==> r.result.error.TargetError?)
    decreases |chunks|
  {
    if chunks == [] {
      assert Oks(chunks) == [] && Concat([]) == [];
      assert written + [] == written;
    } else {
      match chunks[0]
      case Err(e) =>
        assert Errs(chunks) == [e] + Errs(chunks[1..]);
      case Ok(data) =>
        if index !in faults {
          match SetFile(root, Segments(path), written + data)
          case Err(e) =>
          case Ok(root') =>
            OkChunkStep(chunks, written);
            NoFaultsDrop(faults, index, chunks);
            WriteLoopFacts(root', path, chunks[1..], index + 1, written + data, faults);
        }
    }
  }

  /** No write from index `lo` up to (not including) `hi` fails on the host. */
  predicate NoFaults(faults: map<nat, IoError>, lo: nat, hi: nat) {
    forall i | lo <= i < hi :: i !in faults
  }

  /** No fault in a range means none at its first index and none in the rest, and conversely. */
  lemma NoFaultsStep(faults: map<nat, IoError>, lo: nat, hi: nat)
    requires lo < hi
    ensures NoFaults(faults, lo, hi) <==> lo !in faults && NoFaults(faults, lo + 1, hi)
  {
  }

  /** Writing the first chunk and then the rest writes all of them. */
  lemma OkChunkStep(chunks: seq<StorageResult<Data>>, written: Data)
    requires chunks != [] && chunks[0].Ok?
    ensures Errs(chunks) == Errs(chunks[1..])
    ensures written + chunks[0].value + Concat(Oks(chunks[1..])) == written + Concat(Oks(chunks))
  {
    var data := chunks[0].value;
    assert Oks(chunks) == [data] + Oks(chunks[1..]);
    assert ([data] + Oks(chunks[1..]))[1..] == Oks(chunks[1..]);
    assert Concat([data] + Oks(chunks[1..])) == data + Concat(Oks(chunks[1..]));
  }

  /**
   * A source error that arrives before any write fails stops the copy with that error as a
   * SourceError; the file keeps the chunks written before it and nothing after it.
   */
  lemma {:induction false} SourceErrorBeforeFault(root: Node, path: ObjectPath, oks: seq<StorageResult<Data>>,
                                                  e: StorageError, rest: seq<StorageResult<Data>>, index: nat,
                                                  written: Data, faults: map<nat, IoError>)
    requires Lookup(root, Segments(path)) == Ok(FileNode(written))
    requires Segments(path) != []
    ensures Errs(oks) == [] && NoFaults(faults, index, index + |oks|) ==>
      var w := WriteChunks(root, path, oks + [Err(e)] + rest, index, written, faults);
      w.result == Err(SourceError(e)) && Lookup(w.root, Segments(path)) == Ok(FileNode(written + Concat(Oks(oks))))
    decreases |oks|
  {
    if oks == [] {
      assert (oks + [Err(e)] + rest)[0] == Err(e);
      NothingWritten(written, oks);
    } else if Errs(oks) == [] && NoFaults(faults, index, index + |oks|) {
      var tail := [Err(e)] + rest;
      assert oks + [Err(e)] + rest == oks + tail;
      assert oks[1..] + [Err(e)] + rest == oks[1..] + tail;
      OkChunkStep(oks, written);
      NoFaultsStep(faults, index, index + |oks|);
      var root1 := PrefixHead(root, path, oks, tail, index, written, faults);
      SourceErrorBeforeFault(root1, path, oks[1..], e, rest, index + 1, written + oks[0].value, faults);
    }
  }

  /**
   * A write that fails before the source reports an error stops the copy with the host's error
   * as a TargetError; the file keeps the chunks written before it.
   */
  lemma FaultBeforeSourceError(root: Node, path: ObjectPath, oks: seq<StorageResult<Data>>,
                               d: Data, rest: seq<StorageResult<Data>>, index: nat,
                               written: Data, faults: map<nat, IoError>, err: IoError)
    requires Lookup(root, Segments(path)) == Ok(FileNode(written))
    requires Segments(path) != []
    ensures Errs(oks) == [] && NoFaults(faults, index, index + |oks|) && FaultAt(faults, index + |oks|, err) ==>
      var w := WriteChunks(root, path, oks + [Ok(d)] + rest, index, written, faults);
      && w.result == Err(TargetError(GetStorageError(err, path)))
      && Lookup(w.root, Segments(path)) == Ok(FileNode(written + Concat(Oks(oks))))
  {
    DataFollowsAppend(oks, d, rest);
    FaultRun(root, path, oks, oks + [Ok(d)] + rest, index, written, faults, err);
  }

  /** The copy starts with the chunks `oks` and the chunk right after them is data. */
  predicate DataFollows(oks: seq<StorageResult<Data>>, chunks: seq<StorageResult<Data>>) {
    |oks| < |chunks| && chunks[..|oks|] == oks && chunks[|oks|].Ok?
  }

  lemma DataFollowsAppend(oks: seq<StorageResult<Data>>, d: Data, rest: seq<StorageResult<Data>>)
    ensures DataFollows(oks, oks + [Ok(d)] + rest)
  {
    assert (oks + [Ok(d)] + rest)[..|oks|] == oks;
  }

  /**
   * The copy of `chunks` at the file holding `written` starts with the data chunks `oks`, whose
   * writes go through, and the write of the data chunk after them fails with `err`.
   */
  predicate FaultAhead(root: Node, path: ObjectPath, oks: seq<StorageResult<Data>>, chunks: seq<StorageResult<Data>>,
                       index: nat, written: Data, faults: map<nat, IoError>, err: IoError) {
    && Lookup(root, Segments(path)) == Ok(FileNode(written)) && Segments(path) != []
    && DataFollows(oks, chunks) && Errs(oks) == []
    && NoFaults(faults, index, index + |oks|) && FaultAt(faults, index + |oks|, err)
  }

  /** `FaultBeforeSourceError` for any copy with a fault ahead, by induction on `oks`. */
  lemma {:induction false} FaultRun(root: Node, path: ObjectPath, oks: seq<StorageResult<Data>>,
                                    chunks: seq<StorageResult<Data>>, index: nat, written: Data,
                                    faults: map<nat, IoError>, err: IoError)
    ensures FaultAhead(root, path, oks, chunks, index, written, faults, err) ==>
      var w := WriteLoop(root, path, chunks, index, written, faults);
      && w.result == Err(TargetError(GetStorageError(err, path)))
      && Lookup(w.root, Segments(path)) == Ok(FileNode(written + Concat(Oks(oks))))
    decreases |oks|
  {
    if FaultAhead(root, path, oks, chunks, index, written, faults, err) {
      if oks == [] {
        NothingWritten(written, oks);
        FaultHere(root, path, chunks, index, written, faults, err);
      } else {
        var root1 := AheadStep(root, path, oks, chunks, index, written, faults, err);
        FaultRun(root1, path, oks[1..], chunks[1..], index + 1, written + oks[0].value, faults, err);
        Carry(WriteLoop(root, path, chunks, index, written, faults),
              WriteLoop(root1, path, chunks[1..], index + 1, written + oks[0].value, faults),
              Segments(path), Err(TargetError(GetStorageError(err, path))),
              written + oks[0].value + Concat(Oks(oks[1..])), written + Concat(Oks(oks)));
      }
    }
  }

  /** Two equal copies end the same way. */
  lemma Carry(w0: WriteEffect, w1: WriteEffect, segs: seq<string>, result: Result<(), TransferError>, a: Data, b: Data)
    ensures w0 == w1 && w1.result == result && Lookup(w1.root, segs) == Ok(FileNode(a)) && a == b ==>
      w0.result == result && Lookup(w0.root, segs) == Ok(FileNode(b))
  {
  }

  /** Writing the first chunk of `oks` leaves the fault ahead of the rest of the copy. */
  lemma AheadStep(root: Node, path: ObjectPath, oks: seq<StorageResult<Data>>, chunks: seq<StorageResult<Data>>,
                  index: nat, written: Data, faults: map<nat, IoError>, err: IoError) returns (root1: Node)
    requires FaultAhead(root, path, oks, chunks, index, written, faults, err) && oks != []
    ensures FaultAhead(root1, path, oks[1..], chunks[1..], index + 1, written + oks[0].value, faults, err)
    ensures WriteLoop(root, path, chunks, index, written, faults) ==
      WriteLoop(root1, path, chunks[1..], index + 1, written + oks[0].value, faults)
    ensures written + oks[0].value + Concat(Oks(oks[1..])) == written + Concat(Oks(oks))
  {
    NoErrorFirst(oks);
    OkChunkStep(oks, written);
    NoFaultsTail(faults, index, oks, err);
    root1 := RunHead(root, path, oks, chunks, index, written, faults);
  }

  /** The first chunk of a fault-free prefix is written and the copy goes on with the others. */
  lemma RunHead(root: Node, path: ObjectPath, oks: seq<StorageResult<Data>>, chunks: seq<StorageResult<Data>>,
                index: nat, written: Data, faults: map<nat, IoError>) returns (root1: Node)
    requires Lookup(root, Segments(path)) == Ok(FileNode(written))
    requires Segments(path) != [] && DataFollows(oks, chunks) && oks != [] && oks[0].Ok? && index !in faults
    ensures Lookup(root1, Segments(path)) == Ok(FileNode(written + oks[0].value))
    ensures DataFollows(oks[1..], chunks[1..])
    ensures WriteLoop(root, path, chunks, index, written, faults) ==
      WriteLoop(root1, path, chunks[1..], index + 1, written + oks[0].value, faults)
  {
    assert chunks[0] == chunks[..|oks|][0] == oks[0];
    assert chunks[1..][..|oks[1..]|] == chunks[..|oks|][1..];
    WriteStep(root, path, chunks, index, written, faults);
    root1 := SetFile(root, Segments(path), written + oks[0].value).value;
  }

  /** A write that fails on the host ends the copy there, with the tree as it was. */
  lemma FaultHere(root: Node, path: ObjectPath, chunks: seq<StorageResult<Data>>, index: nat,
                  written: Data, faults: map<nat, IoError>, err: IoError)
    ensures Lookup(root, Segments(path)) == Ok(FileNode(written)) && chunks != [] && chunks[0].Ok? &&
            FaultAt(faults, index, err) ==>
      WriteLoop(root, path, chunks, index, written, faults) == WriteEffect(root, Err(TargetError(GetStorageError(err, path))))
  {
  }

  /** No fault for the writes of `chunks` means none for the first and none for the others. */
  lemma NoFaultsDrop(faults: map<nat, IoError>, index: nat, chunks: seq<StorageResult<Data>>)
    requires chunks != []
    ensures NoFaults(faults, index, index + |chunks|) <==> index !in faults && NoFaults(faults, index + 1, index + 1 + |chunks[1..]|)
  {
    assert index + 1 + |chunks[1..]| == index + |chunks|;
    NoFaultsStep(faults, index, index + |chunks|);
  }

  /** Chunks without source errors start with data. */
  lemma NoErrorFirst(oks: seq<StorageResult<Data>>)
    requires oks != [] && Errs(oks) == []
    ensures oks[0].Ok?
  {
  }

  /** A fault-free range for a prefix starts with a fault-free write and goes on for the prefix's tail. */
  lemma NoFaultsTail(faults: map<nat, IoError>, index: nat, oks: seq<StorageResult<Data>>, err: IoError)
    requires oks != []
    ensures NoFaults(faults, index, index + |oks|) ==> index !in faults && NoFaults(faults, index + 1, index + 1 + |oks[1..]|)
    ensures FaultAt(faults, index + |oks|, err) ==> FaultAt(faults, index + 1 + |oks[1..]|, err)
  {
    assert index + 1 + |oks[1..]| == index + |oks|;
    NoFaultsStep(faults, index, index + |oks|);
  }

  /** Nothing copied leaves the data as it was. */
  lemma NothingWritten(written: Data, oks: seq<StorageResult<Data>>)
    requires oks == []
    ensures written + Concat(Oks(oks)) == written
  {
  }

  /** The first chunk of a fault-free prefix is written and the copy goes on with the others. */
  lemma PrefixHead(root: Node, path: ObjectPath, oks: seq<StorageResult<Data>>,
                   tail: seq<StorageResult<Data>>, index: nat, written: Data,
                   faults: map<nat, IoError>) returns (root1: Node)
    requires Lookup(root, Segments(path)) == Ok(FileNode(written))
    requires Segments(path) != [] && oks != [] && oks[0].Ok? && index !in faults
    ensures Lookup(root1, Segments(path)) == Ok(FileNode(written + oks[0].value))
    ensures WriteLoop(root, path, oks + tail, index, written, faults) ==
      WriteLoop(root1, path, oks[1..] + tail, index + 1, written + oks[0].value, faults)
  {
    assert (oks + tail)[0] == oks[0] && (oks + tail)[1..] == oks[1..] + tail;
    WriteStep(root, path, oks + tail, index, written, faults);
    root1 := SetFile(root, Segments(path), written + oks[0].value).value;
  }

  /** The write of item `i` fails on the host with `err`. */
  predicate FaultAt(faults: map<nat, IoError>, i: nat, err: IoError) {
    i in faults && faults[i] == err
  }

  /** A write that goes through moves on to the next chunk with the file extended by it. */
  lemma WriteStep(root: Node, path: ObjectPath, chunks: seq<StorageResult<Data>>, index: nat,
                  written: Data, faults: map<nat, IoError>)
    requires Lookup(root, Segments(path)) == Ok(FileNode(written))
    requires Segments(path) != [] && chunks != [] && chunks[0].Ok? && index !in faults
    ensures SetFile(root, Segments(path), written + chunks[0].value).Ok?
    ensures WriteLoop(root, path, chunks, index, written, faults) ==
      WriteLoop(SetFile(root, Segments(path), written + chunks[0].value).value, path, chunks[1..], index + 1,
                  written + chunks[0].value, faults)
  {
  }

  /**
   * The first step of `write_file_from_stream`: whatever is at the path is removed (a directory
   * with everything below it, by `delete_directory` as written when `corrected` is false); a
   * missing entry needs nothing. Every failure is a TargetError.
   */
  function ClearTarget(root: Node, path: ObjectPath, corrected: bool): (r: Result<Node, TransferError>)
    ensures r.Err? ==> r.error.TargetError?
    ensures r.Ok? ==> Metadata(r.value, Segments(path)).Err? && Metadata(r.value, Segments(path)).error.kind == IoNotFound
    ensures Metadata(root, Segments(path)).Err? ==>
      r == (if Metadata(root, Segments(path)).error.kind == IoNotFound then Ok(root)
            else Err(TargetError(GetStorageError(Metadata(root, Segments(path)).error, path))))
  {
    var segs := Segments(path);
    match Metadata(root, segs)
    case Ok(m) =>
      if m == DirMeta then
        var d := DeleteDirectoryWith(root, path, corrected);
        if d.result.Err? then Err(TargetError(d.result.error)) else Ok(d.root)
      else
        (match RemoveFile(root, segs)
         case Err(e) => Err(TargetError(GetStorageError(e, path)))
         case Ok(root') => Ok(root'))
    case Err(e) => if e.kind != IoNotFound then Err(TargetError(GetStorageError(e, path))) else Ok(root)
  }

  /**
   * The rest of `write_file_from_stream` once the path is clear: the file is created, the
   * chunks are copied, and the file is flushed and then closed.
   */
  function CopyAndClose(root1: Node, path: ObjectPath, chunks: seq<StorageResult<Data>>, host: HostFaults)
    : (r: WriteEffect)
    ensures r.result.Ok? ==> Errs(chunks) == [] && GetFileStream(r.root, path) == Ok(Concat(Oks(chunks)))
    ensures r.result.Err? && r.result.error.SourceError? ==> Errs(chunks) != [] && r.result.error.source == Errs(chunks)[0]
    ensures r.result.Err? && Errs(chunks) == [] ==> r.result.error.TargetError?
    ensures host.flush.Some? || host.shutdown.Some? ==> r.result.Err?
    ensures CreateFile(root1, Segments(path)).Ok? && Errs(chunks) == [] && NoFaults(host.faults, 0, |chunks|) ==>
      && (host.flush.Some? ==> r.result == Err(TargetError(GetStorageError(host.flush.value, path))))
      && (host.flush.None? && host.shutdown.Some? ==> r.result == Err(TargetError(GetStorageError(host.shutdown.value, path))))
      && (host.flush.None? && host.shutdown.None? ==> r.result.Ok?)
  {
    match CreateFile(root1, Segments(path))
    case Err(e) => WriteEffect(root1, Err(TargetError(GetStorageError(e, path))))
    case Ok(root2) =>
      var copied := WriteChunks(root2, path, chunks, 0, [], host.faults);
      assert Segments(path) != [];
      assert Errs(chunks) == [] && NoFaults(host.faults, 0, |chunks|) ==> copied.result.Ok?;
      if copied.result.Err? then copied
      else if host.flush.Some? then WriteEffect(copied.root, Err(TargetError(GetStorageError(host.flush.value, path))))
      else if host.shutdown.Some? then WriteEffect(copied.root, Err(TargetError(GetStorageError(host.shutdown.value, path))))
      else
        assert [] + Concat(Oks(chunks)) == Concat(Oks(chunks));
        copied
  }

  /**
   * `write_file_from_stream`: the path is cleared, a new file is created, the source's chunks
   * are written in order, and the file is flushed and closed. Failures of the source are
   * SourceErrors, of the host TargetErrors.
   */
  function WriteFileFromStream(root: Node, path: ObjectPath, chunks: seq<StorageResult<Data>>, host: HostFaults,
                               corrected: bool): (r: WriteEffect)
    ensures r.result.Ok? ==> Errs(chunks) == [] && GetFileStream(r.root, path) == Ok(Concat(Oks(chunks)))
    ensures r.result.Err? && r.result.error.SourceError? ==> Errs(chunks) != [] && r.result.error.source == Errs(chunks)[0]
    ensures r.result.Err? && Errs(chunks) == [] ==> r.result.error.TargetError?
    ensures host.flush.Some? ==> r.result.Err?
    ensures host.shutdown.Some? ==> r.result.Err?
    ensures Metadata(root, Segments(path)).Err? && Metadata(root, Segments(path)).error.kind != IoNotFound ==>
      r == WriteEffect(root, Err(TargetError(GetStorageError(Metadata(root, Segments(path)).error, path))))
    ensures Metadata(root, Segments(path)).Err? && Metadata(root, Segments(path)).error.kind == IoNotFound &&
            CreateFile(root, Segments(path)).Ok? && Errs(chunks) == [] && NoFaults(host.faults, 0, |chunks|) ==>
      && (host.flush.Some? ==> r.result == Err(TargetError(GetStorageError(host.flush.value, path))))
      && (host.flush.None? && host.shutdown.Some? ==> r.result == Err(TargetError(GetStorageError(host.shutdown.value, path))))
      && (host.flush.None? && host.shutdown.None? ==> r.result.Ok?)
  {
    match ClearTarget(root, path, corrected)
    case Err(e) => WriteEffect(root, Err(e))
    case Ok(root1) => CopyAndClose(root1, path, chunks, host)
  }

  /** A directory at the path that cannot be deleted fails the write with the deletion's error, as a TargetError. */
  lemma WriteOverUndeletable(root: Node, path: ObjectPath, chunks: seq<StorageResult<Data>>, host: HostFaults,
                             corrected: bool)
    requires Metadata(root, Segments(path)) == Ok(DirMeta)
    ensures DeleteDirectoryWith(root, path, corrected).result.Err? ==>
      WriteFileFromStream(root, path, chunks, host, corrected) ==
      WriteEffect(root, Err(TargetError(DeleteDirectoryWith(root, path, corrected).result.error)))
  {
  }

  /**
   * Writing and reading back: after a successful write, the file holds exactly the source's
   * chunks, concatenated in order, and it is a regular file of that length.
   */
  lemma WriteThenRead(root: Node, path: ObjectPath, chunks: seq<StorageResult<Data>>, host: HostFaults, corrected: bool)
    requires !IsDirPrefix(path)
    ensures WriteFileFromStream(root, path, chunks, host, corrected).result.Ok? ==>
      var after := WriteFileFromStream(root, path, chunks, host, corrected).root;
      && GetFileStream(after, path) == Ok(Concat(Oks(chunks)))
      && GetObject(after, path) == Ok(Object(FileInternals, File, path, |Concat(Oks(chunks))|))
  {
  }

  /** A write whose source fails before any host fault reports the source's error. */
  lemma SourceFailureReported(root: Node, path: ObjectPath, e: StorageError, host: HostFaults, corrected: bool)
    requires Metadata(root, Segments(path)).Err? && Metadata(root, Segments(path)).error.kind == IoNotFound
    requires CreateFile(root, Segments(path)).Ok?
    ensures WriteFileFromStream(root, path, [Err(e)], host, corrected).result == Err(SourceError(e))
  {
  }

  /** `SourceErrorBeforeFault` for the copy into a newly created file. */
  lemma {:induction false} CopySourceErrorBeforeFault(root1: Node, path: ObjectPath, oks: seq<StorageResult<Data>>, e: StorageError,
                                   rest: seq<StorageResult<Data>>, host: HostFaults)
    requires CreateFile(root1, Segments(path)).Ok?
    ensures Errs(oks) == [] && NoFaults(host.faults, 0, |oks|) ==>
      var w := CopyAndClose(root1, path, oks + [Err(e)] + rest, host);
      w.result == Err(SourceError(e)) && GetFileStream(w.root, path) == Ok(Concat(Oks(oks)))
  {
    if Errs(oks) == [] && NoFaults(host.faults, 0, |oks|) {
      var root2 := CreateFile(root1, Segments(path)).value;
      assert NoFaults(host.faults, 0, 0 + |oks|);
      SourceErrorBeforeFault(root2, path, oks, e, rest, 0, [], host.faults);
      var copied := WriteChunks(root2, path, oks + [Err(e)] + rest, 0, [], host.faults);
      assert copied.result == Err(SourceError(e));
      NothingBefore(Concat(Oks(oks)));
      assert Lookup(copied.root, Segments(path)) == Ok(FileNode(Concat(Oks(oks))));
      CopyStops(root1, path, oks + [Err(e)] + rest, host);
    }
  }

  /** `FaultBeforeSourceError` for the copy into a newly created file. */
  lemma {:induction false} CopyFaultBeforeSourceError(root1: Node, path: ObjectPath, oks: seq<StorageResult<Data>>, d: Data,
                                                      rest: seq<StorageResult<Data>>, host: HostFaults, err: IoError)
    requires CreateFile(root1, Segments(path)).Ok?
    ensures Errs(oks) == [] && NoFaults(host.faults, 0, |oks|) && FaultAt(host.faults, |oks|, err) ==>
      var w := CopyAndClose(root1, path, oks + [Ok(d)] + rest, host);
      && w.result == Err(TargetError(GetStorageError(err, path)))
      && GetFileStream(w.root, path) == Ok(Concat(Oks(oks)))
  {
    if Errs(oks) == [] && NoFaults(host.faults, 0, |oks|) && FaultAt(host.faults, |oks|, err) {
      var root2 := CreateFile(root1, Segments(path)).value;
      assert NoFaults(host.faults, 0, 0 + |oks|) && FaultAt(host.faults, 0 + |oks|, err);
      FaultBeforeSourceError(root2, path, oks, d, rest, 0, [], host.faults, err);
      var copied := WriteChunks(root2, path, oks + [Ok(d)] + rest, 0, [], host.faults);
      assert copied.result == Err(TargetError(GetStorageError(err, path)));
      NothingBefore(Concat(Oks(oks)));
      assert Lookup(copied.root, Segments(path)) == Ok(FileNode(Concat(Oks(oks))));
      CopyStops(root1, path, oks + [Ok(d)] + rest, host);
    }
  }

  /** A copy that fails is the outcome of the whole transfer: nothing is flushed or closed after it. */
  lemma CopyStops(root1: Node, path: ObjectPath, chunks: seq<StorageResult<Data>>, host: HostFaults)
    requires CreateFile(root1, Segments(path)).Ok?
    ensures var copied := WriteChunks(CreateFile(root1, Segments(path)).value, path, chunks, 0, [], host.faults);
      copied.result.Err? ==> CopyAndClose(root1, path, chunks, host) == copied
  {
  }

  /** Nothing written before the copy: the file holds exactly what the copy wrote. */
  lemma NothingBefore(x: Data)
    ensures [] + x == x
  {
  }

  /**
   * A write to a free path whose source fails before any write fault reports the source's
   * error and stops: the file holds the chunks that came before the error.
   */
  lemma {:induction false} WriteSourceErrorBeforeFault(root: Node, path: ObjectPath, oks: seq<StorageResult<Data>>, e: StorageError,
                                    rest: seq<StorageResult<Data>>, host: HostFaults, corrected: bool)
    requires Metadata(root, Segments(path)).Err? && Metadata(root, Segments(path)).error.kind == IoNotFound
    requires CreateFile(root, Segments(path)).Ok?
    ensures Errs(oks) == [] && NoFaults(host.faults, 0, |oks|) ==>
      var w := WriteFileFromStream(root, path, oks + [Err(e)] + rest, host, corrected);
      w.result == Err(SourceError(e)) && GetFileStream(w.root, path) == Ok(Concat(Oks(oks)))
  {
    CopySourceErrorBeforeFault(root, path, oks, e, rest, host);
  }

  /**
   * A write to a free path whose host fails before the source reports an error reports the
   * host's error as a TargetError: the file holds the chunks that came before the fault.
   */
  lemma {:induction false} WriteFaultBeforeSourceError(root: Node, path: ObjectPath, oks: seq<StorageResult<Data>>, d: Data,
                                                       rest: seq<StorageResult<Data>>, host: HostFaults, err: IoError,
                                                       corrected: bool)
    requires Metadata(root, Segments(path)).Err? && Metadata(root, Segments(path)).error.kind == IoNotFound
    requires CreateFile(root, Segments(path)).Ok?
    ensures Errs(oks) == [] && NoFaults(host.faults, 0, |oks|) && FaultAt(host.faults, |oks|, err) ==>
      var w := WriteFileFromStream(root, path, oks + [Ok(d)] + rest, host, corrected);
      && w.result == Err(TargetError(GetStorageError(err, path)))
      && GetFileStream(w.root, path) == Ok(Concat(Oks(oks)))
  {
    CopyFaultBeforeSourceError(root, path, oks, d, rest, host, err);
  }

  // ---- The nested-directory case ----

  /** A directory `d` holding `d/a`, which holds the empty directory `d/a/b`. */
  const Nested := DirNode([Entry("d", DirNode([Entry("a", DirNode([Entry("b", DirNode([]))]))]))])
  const DirD := ObjectPath(["d"])

  /** Listing `d/` yields `d/a` and then `d/a/b`, both directories. */
  lemma NestedListing()
    ensures ListObjects(Nested, PushPart(DirD, "")) == [
      Ok(Object(FileInternals, Directory, ObjectPath(["d", "a"]), 0)),
      Ok(Object(FileInternals, Directory, ObjectPath(["d", "a", "b"]), 0))]
  {
    var prefix := PushPart(DirD, "");
    assert prefix == ObjectPath(["d", ""]);
    assert Segments(PopPart(prefix)) == ["d"];
    var a := DirNode([Entry("b", DirNode([]))]);
    var da := DirNode([Entry("a", a)]);
    var pd := ObjectPath(["d"]);
    var pa := ObjectPath(["d", "a"]);
    var pb := ObjectPath(["d", "a", "b"]);
    assert Lookup(Nested, ["d"]) == Ok(da);
    assert PopPart(prefix) == pd;
    var oa := Object(FileInternals, Directory, pa, 0);
    var ob := Object(FileInternals, Directory, pb, 0);
    ScanOne(pd, "a", a, prefix, oa);
    ScanOne(pa, "b", DirNode([]), prefix, ob);
    var w0 := Work(pd, da);
    var w1 := Work(pa, a);
    var w2 := Work(pb, DirNode([]));
    assert Visit(w0, prefix) == ([Ok(oa)], [w1]);
    assert Visit(w1, prefix) == ([Ok(ob)], [w2]);
    assert Visit(w2, prefix) == ([], []);
    assert [w0][1..] + [w1] == [w1];
    assert [w1][1..] + [w2] == [w2];
    assert [w2][1..] + [] == [];
    assert Walk([w2], prefix) == [];
    assert Walk([w1], prefix) == [Ok(ob)];
    assert Walk([w0], prefix) == [Ok(oa), Ok(ob)];
  }

  /** Scanning a directory whose only entry is a matching directory emits it and queues it. */
  lemma ScanOne(dir: ObjectPath, name: string, n: Node, prefix: ObjectPath, o: Object)
    requires n.DirNode? && StartsWith(PushPart(dir, name), prefix)
    requires o == Object(FileInternals, Directory, PushPart(dir, name), 0)
    ensures ScanEntries(dir, [Entry(name, n)], prefix) == ([Ok(o)], [Work(PushPart(dir, name), n)])
  {
    var es := [Entry(name, n)];
    var p := PushPart(dir, name);
    assert es[1..] == [];
    assert ScanEntries(dir, es[1..], prefix) == ([], []);
    assert EntryPath(dir, es[0]) == p;
    assert MetaOf(n) == Some(DirMeta);
    assert ObjectFor(p, Some(DirMeta)) == o;
    var item: StorageResult<Object> := Ok(o);
    assert ScanEntries(dir, es, prefix) == ([item] + [], [Work(p, n)] + []);
    assert [item] + [] == [item];
    assert [Work(p, n)] + [] == [Work(p, n)];
  }

  const DirA := Object(FileInternals, Directory, ObjectPath(["d", "a"]), 0)
  const DirB := Object(FileInternals, Directory, ObjectPath(["d", "a", "b"]), 0)

  lemma NestedCollected()
    ensures Collect(ListObjects(Nested, PushPart(DirD, ""))) == Ok([DirA, DirB])
    ensures NonDirectories([DirA, DirB]) == [] && Directories([DirA, DirB]) == [DirA, DirB]
  {
    NestedListing();
    CollectTwo(Ok(DirA), Ok(DirB));
    NestedDirectories();
  }

  /** Both listed objects are directories. */
  lemma NestedDirectories()
    ensures NonDirectories([DirA, DirB]) == [] && Directories([DirA, DirB]) == [DirA, DirB]
  {
    assert [DirA, DirB][1..] == [DirB];
    assert [DirB][1..] == [];
    assert NonDirectories([]) == [] && Directories([]) == [];
    assert Directories([DirB]) == [DirB] + Directories([]);
    assert [DirB] + [] == [DirB];
    assert NonDirectories([DirB]) == [] && Directories([DirB]) == [DirB];
  }

  /** Removing `d/a` first is refused: it still holds `d/a/b`. */
  lemma ParentFirstRefused()
    ensures RemoveAll(Nested, [DirA, DirB], true) == Effect(Nested, Err(Failure(OtherError, "d/a")))
  {
    assert Segments(DirA.path) == ["d", "a"];
    assert Lookup(Nested, ["d", "a"]) == Ok(DirNode([Entry("b", DirNode([]))]));
    assert RemoveDir(Nested, ["d", "a"]) == Err(DirectoryNotEmpty);
    assert ToString(DirA.path) == "d/a";
  }

  /**
   * The source's `delete_directory` fails on a nested directory: it asks the host to remove
   * `d/a` while `d/a/b` is still inside it.
   */
  lemma AsWrittenFailsOnNested()
    ensures DeleteDirectoryAsWritten(Nested, DirD).result == Err(Failure(OtherError, "d/a"))
  {
    NestedCollected();
    ParentFirstRefused();
    assert RemoveAll(Nested, [], false) == Effect(Nested, Ok(()));
  }

  /** `delete_object` on the nested directory fails as the source writes it, and succeeds corrected. */
  lemma DeleteObjectNested()
    ensures DeleteObject(Nested, DirD, false).result == Err(Failure(OtherError, "d/a"))
    ensures DeleteObject(Nested, DirD, true) == Effect(DirNode([]), Ok(()))
  {
    assert Segments(DirD) == ["d"];
    assert Lookup(Nested, ["d"]).value.DirNode?;
    AsWrittenFailsOnNested();
    CorrectedDeletesNested();
  }

  /**
   * Writing an empty file over the nested directory fails as the source writes it: clearing the
   * path fails with the deletion's error, now a TargetError.
   */
  lemma WriteOverNested()
    ensures WriteFileFromStream(Nested, DirD, [], HostFaults(map[], None, None), false).result ==
      Err(TargetError(Failure(OtherError, "d/a")))
  {
    assert Segments(DirD) == ["d"];
    assert Lookup(Nested, ["d"]).value.DirNode?;
    AsWrittenFailsOnNested();
    assert ClearTarget(Nested, DirD, false) == Err(TargetError(Failure(OtherError, "d/a")));
  }

  /** With the corrected order the empty file replaces the nested directory. */
  lemma CorrectedWriteOverNested()
    ensures WriteFileFromStream(Nested, DirD, [], HostFaults(map[], None, None), true).result.Ok?
    ensures GetFileStream(WriteFileFromStream(Nested, DirD, [], HostFaults(map[], None, None), true).root, DirD) == Ok([])
  {
    CorrectedClearsNested();
    CopyIntoEmpty();
  }

  lemma CorrectedClearsNested()
    ensures ClearTarget(Nested, DirD, true) == Ok(DirNode([]))
  {
    assert Segments(DirD) == ["d"];
    assert Lookup(Nested, ["d"]).value.DirNode?;
    CorrectedDeletesNested();
  }

  lemma CopyIntoEmpty()
    ensures CopyAndClose(DirNode([]), DirD, [], HostFaults(map[], None, None)).result.Ok?
  {
    assert Segments(DirD) == ["d"];
    assert Lookup(DirNode([]), ["d"]) == Err(NoSuchEntry);
    assert SetEntry([], "d", Some(FileNode([]))) == [Entry("d", FileNode([]))];
    assert CreateFile(DirNode([]), ["d"]).Ok?;
    assert Errs<Data, StorageError>([]) == [];
  }

  const NestedWithoutB := DirNode([Entry("d", DirNode([Entry("a", DirNode([]))]))])
  const NestedWithoutA := DirNode([Entry("d", DirNode([]))])

  /** Removing `d/a/b` and then `d/a` succeeds. */
  lemma ChildFirstSucceeds()
    ensures RemoveAll(Nested, [DirB, DirA], true) == Effect(NestedWithoutA, Ok(()))
  {
    assert Segments(DirB.path) == ["d", "a", "b"];
    assert Segments(DirA.path) == ["d", "a"];
    assert Lookup(Nested, ["d", "a", "b"]) == Ok(DirNode([]));
    PutNested();
    assert RemoveDir(Nested, ["d", "a", "b"]) == Ok(NestedWithoutB);
    assert Lookup(NestedWithoutB, ["d", "a"]) == Ok(DirNode([]));
    PutWithoutB();
    assert RemoveDir(NestedWithoutB, ["d", "a"]) == Ok(NestedWithoutA);
    assert [DirB, DirA][1..] == [DirA];
    assert [DirA][1..] == [];
    assert RemoveAll(NestedWithoutB, [DirA], true) == RemoveAll(NestedWithoutA, [], true);
  }

  lemma PutNested()
    ensures Put(Nested, ["d", "a", "b"], None) == Ok(NestedWithoutB)
  {
    var b := [Entry("b", DirNode([]))];
    assert RemoveNamed(b, "b") == [] by { assert b[1..] == []; }
    assert Put(DirNode(b), ["b"], None) == Ok(DirNode([]));
    var a := [Entry("a", DirNode(b))];
    assert FindEntry(a, "a") == Some(0);
    assert ["a", "b"][1..] == ["b"];
    assert a[0 := Entry("a", DirNode([]))] == [Entry("a", DirNode([]))];
    assert Put(DirNode(a), ["a", "b"], None) == Ok(DirNode([Entry("a", DirNode([]))]));
    var d := [Entry("d", DirNode(a))];
    assert FindEntry(d, "d") == Some(0);
    assert ["d", "a", "b"][1..] == ["a", "b"];
    assert d[0 := Entry("d", DirNode([Entry("a", DirNode([]))]))] == [Entry("d", DirNode([Entry("a", DirNode([]))]))];
  }

  lemma PutWithoutB()
    ensures Put(NestedWithoutB, ["d", "a"], None) == Ok(NestedWithoutA)
  {
    var a := [Entry("a", DirNode([]))];
    assert RemoveNamed(a, "a") == [] by { assert a[1..] == []; }
    assert Put(DirNode(a), ["a"], None) == Ok(DirNode([]));
    var d := [Entry("d", DirNode(a))];
    assert FindEntry(d, "d") == Some(0);
    assert ["d", "a"][1..] == ["a"];
    assert d[0 := Entry("d", DirNode([]))] == [Entry("d", DirNode([]))];
  }

  lemma PutWithoutA()
    ensures Put(NestedWithoutA, ["d"], None) == Ok(DirNode([]))
  {
    var d := [Entry("d", DirNode([]))];
    assert RemoveNamed(d, "d") == [] by { assert d[1..] == []; }
  }

  /** With the corrected order the same directory is deleted: `d/a/b`, then `d/a`, then `d`. */
  lemma CorrectedDeletesNested()
    ensures DeleteDirectory(Nested, DirD) == Effect(DirNode([]), Ok(()))
  {
    NestedCollected();
    CorrectedOrderNested();
    ChildFirstSucceeds();
    RemoveLastNested();
    assert RemoveAll(Nested, NonDirectories([DirA, DirB]), false) == Effect(Nested, Ok(()));
    assert Segments(DirD) == ["d"];
  }

  lemma CorrectedOrderNested()
    ensures CorrectedOrder([DirA, DirB]) == [DirB, DirA]
  {
    NestedDirectories();
    var r := Reverse([DirA, DirB]);
    assert |r| == 2 && r[0] == DirB && r[1] == DirA;
    assert r == [DirB, DirA];
  }

  lemma RemoveLastNested()
    ensures RemoveDir(NestedWithoutA, ["d"]) == Ok(DirNode([]))
  {
    assert Lookup(NestedWithoutA, ["d"]) == Ok(DirNode([]));
    PutWithoutA();
  }

  lemma CollectTwo(x: StorageResult<Object>, y: StorageResult<Object>)
    requires x.Ok? && y.Ok?
    ensures Collect([x, y]) == Ok([x.value, y.value])
  {
    assert [x, y][1..] == [y];
    assert [y][1..] == [];
    assert [y.value] + [] == [y.value];
    assert Collect([y]) == Ok([y.value]);
    assert [x.value] + [y.value] == [x.value, y.value];
  }

}
