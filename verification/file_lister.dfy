/**
 * The local backend's recursive listing (file-store/src/backends/file.rs: `directory_stream`,
 * `FileLister`). Listing starts at the prefix with its last part popped; each directory's
 * entries are checked against the prefix, matching ones are emitted and matching directories
 * are listed in turn. The merged directory streams are modelled as a first-in-first-out
 * worklist: each directory's stream is drained before the next one starts.
 */
module FileLister {
  import opened Wrappers
  import opened Paths
  import opened Types
  import opened FileErrors
  import opened FsModel

  /** A directory still to be listed: the path it was found at and its contents. */
  datatype Work = Work(path: ObjectPath, node: Node)

  /** `get_object` (the helper): the object for a path and the metadata read for it, if any. */
  function ObjectFor(path: ObjectPath, meta: Option<Meta>): (o: Object)
    ensures o.path == path && o.internals == FileInternals
    ensures o.objectType == Directory <==> meta == Some(DirMeta)
    ensures o.objectType == File <==> meta.Some? && meta.value.FileMeta?
    ensures o.objectType == Symlink <==> meta == Some(OtherMeta)
    ensures o.objectType == Unknown <==> meta.None?
    ensures o.objectType == File ==> o.size == meta.value.len
    ensures o.objectType != File ==> o.size == 0
  {
    match meta
    case Some(FileMeta(len)) => Object(FileInternals, File, path, len)
    case Some(DirMeta) => Object(FileInternals, Directory, path, 0)
    case Some(OtherMeta) => Object(FileInternals, Symlink, path, 0)
    case None => Object(FileInternals, Unknown, path, 0)
  }

  function Size(n: Node): nat
    decreases n
  {
    match n
    case DirNode(es) => 1 + SizeSeq(es)
    case _ => 1
  }

  function SizeSeq(es: seq<Entry>): nat
    decreases es
  {
    if es == [] then 0 else Size(es[0].node) + SizeSeq(es[1..])
  }

  function QueueSize(q: seq<Work>): nat {
    if q == [] then 0 else Size(q[0].node) + QueueSize(q[1..])
  }

  lemma {:induction false} QueueSizeAppend(a: seq<Work>, b: seq<Work>)
    ensures QueueSize(a + b) == QueueSize(a) + QueueSize(b)
  {
    if a == [] {
      assert a + b == b;
    } else {
      assert (a + b)[1..] == a[1..] + b;
      QueueSizeAppend(a[1..], b);
    }
  }

  /** The error a failed `read_dir` of a listed directory turns into. */
  function ReadDirError(w: Work): StorageError {
    match w.node
    case LockedDir(e) => GetStorageError(e, w.path)
    case BrokenNode(e) => GetStorageError(e, w.path)
    case _ => GetStorageError(NotADirectory, w.path)
  }

  /** One entry of a directory stream as the lister sees it: its path and metadata, if readable. */
  function EntryPath(dir: ObjectPath, e: Entry): ObjectPath {
    PushPart(dir, e.name)
  }

  /**
   * The lister's handling of one directory's entries: a matching entry is emitted (a
   * directory is queued for listing first); a non-matching one is skipped.
   */
  function ScanEntries(dir: ObjectPath, es: seq<Entry>, prefix: ObjectPath): (r: (seq<StorageResult<Object>>, seq<Work>))
    ensures QueueSize(r.1) <= SizeSeq(es)
    ensures forall i | 0 <= i < |r.0| :: r.0[i].Ok?
    ensures Matching(r.0, prefix)
  {
    if es == [] then ([], [])
    else
      var p := EntryPath(dir, es[0]);
      var meta := MetaOf(es[0].node);
      var (out, found) := ScanEntries(dir, es[1..], prefix);
      if StartsWith(p, prefix) then
        var queued := if meta == Some(DirMeta) then [Work(p, es[0].node)] else [];
        QueueSizeAppend(queued, found);
        assert QueueSize(queued) <= Size(es[0].node) by {
          if queued != [] { assert queued[1..] == []; }
        }
        MatchingAppend([Ok(ObjectFor(p, meta))], out, prefix);
        ([Ok(ObjectFor(p, meta))] + out, queued + found)
      else (out, found)
  }

  /** Every object of `r` lies under `prefix`. */
  predicate Matching(r: seq<StorageResult<Object>>, prefix: ObjectPath) {
    forall i | 0 <= i < |r| && r[i].Ok? :: StartsWith(r[i].value.path, prefix)
  }

  lemma MatchingAppend(a: seq<StorageResult<Object>>, b: seq<StorageResult<Object>>, prefix: ObjectPath)
    requires Matching(a, prefix) && Matching(b, prefix)
    ensures Matching(a + b, prefix)
  {
    forall i | 0 <= i < |a + b| && (a + b)[i].Ok? ensures StartsWith((a + b)[i].value.path, prefix) {
      if i < |a| { assert (a + b)[i] == a[i]; } else { assert (a + b)[i] == b[i - |a|]; }
    }
  }

  /** Listing one queued directory: its scanned entries, or the error reading it failed with. */
  function Visit(w: Work, prefix: ObjectPath): (r: (seq<StorageResult<Object>>, seq<Work>))
    ensures QueueSize(r.1) < Size(w.node)
  {
    match w.node
    case DirNode(es) => ScanEntries(w.path, es, prefix)
    case _ => ([Err(ReadDirError(w))], [])
  }

  /** Draining the worklist: each directory's items, then those of the directories queued meanwhile. */
  function Walk(q: seq<Work>, prefix: ObjectPath): seq<StorageResult<Object>>
    decreases QueueSize(q)
  {
    if q == [] then []
    else
      var (out, found) := Visit(q[0], prefix);
      QueueSizeAppend(q[1..], found);
      out + Walk(q[1..] + found, prefix)
  }

  /** `FileLister::list`: the listing of `prefix`, starting in the directory named by its popped path. */
  function ListObjects(root: Node, prefix: ObjectPath): (r: seq<StorageResult<Object>>)
    ensures Matching(r, prefix)
  {
    var start := PopPart(prefix);
    match Lookup(root, Segments(start))
    case Err(e) => [Err(GetStorageError(e, start))]
    case Ok(n) =>
      WalkSound([Work(start, n)], prefix);
      Walk([Work(start, n)], prefix)
  }

  /** Every object a walk emits matches the prefix. */
  lemma {:induction false} WalkSound(q: seq<Work>, prefix: ObjectPath)
    ensures Matching(Walk(q, prefix), prefix)
    decreases QueueSize(q)
  {
    if q != [] {
      var (out, found) := Visit(q[0], prefix);
      QueueSizeAppend(q[1..], found);
      WalkSound(q[1..] + found, prefix);
      var rest := Walk(q[1..] + found, prefix);
      assert Walk(q, prefix) == out + rest;
      assert Matching(out, prefix) by {
        if !q[0].node.DirNode? {
          assert out == [Err(ReadDirError(q[0]))];
        }
      }
      MatchingAppend(out, rest, prefix);
    }
  }

  // ---- The reference listing: depth first, independent of any queue ----

  /** What listing a directory yields, recursively, as a set: matching entries and everything below matching directories. */
  function RefWalk(w: Work, prefix: ObjectPath): set<StorageResult<Object>>
    decreases w.node
  {
    match w.node
    case DirNode(es) => RefEntries(w.path, es, prefix)
    case _ => {Err(ReadDirError(w))}
  }

  function RefEntries(dir: ObjectPath, es: seq<Entry>, prefix: ObjectPath): set<StorageResult<Object>>
    decreases es
  {
    if es == [] then {}
    else
      var p := EntryPath(dir, es[0]);
      var meta := MetaOf(es[0].node);
      (if StartsWith(p, prefix) then
         {Ok(ObjectFor(p, meta))} + (if meta == Some(DirMeta) then RefWalk(Work(p, es[0].node), prefix) else {})
       else {})
      + RefEntries(dir, es[1..], prefix)
  }

  function RefQueue(q: seq<Work>, prefix: ObjectPath): set<StorageResult<Object>> {
    if q == [] then {} else RefWalk(q[0], prefix) + RefQueue(q[1..], prefix)
  }

  lemma {:induction false} RefQueueAppend(a: seq<Work>, b: seq<Work>, prefix: ObjectPath)
    ensures RefQueue(a + b, prefix) == RefQueue(a, prefix) + RefQueue(b, prefix)
  {
    if a == [] {
      assert a + b == b;
    } else {
      assert (a + b)[0] == a[0];
      assert (a + b)[1..] == a[1..] + b;
      RefQueueAppend(a[1..], b, prefix);
    }
  }

  function Elems<T>(s: seq<T>): set<T> {
    set x | x in s
  }

  /** Scanning a directory yields its matching entries now and the rest of its reference listing through the queued directories. */
  lemma {:induction false} ScanMatchesReference(dir: ObjectPath, es: seq<Entry>, prefix: ObjectPath)
    ensures Elems(ScanEntries(dir, es, prefix).0) + RefQueue(ScanEntries(dir, es, prefix).1, prefix) == RefEntries(dir, es, prefix)
  {
    if es != [] {
      ScanMatchesReference(dir, es[1..], prefix);
      var p := EntryPath(dir, es[0]);
      var meta := MetaOf(es[0].node);
      var tail := ScanEntries(dir, es[1..], prefix);
      var all := ScanEntries(dir, es, prefix);
      var refTail := RefEntries(dir, es[1..], prefix);
      if StartsWith(p, prefix) {
        var queued := if meta == Some(DirMeta) then [Work(p, es[0].node)] else [];
        var sub := if meta == Some(DirMeta) then RefWalk(Work(p, es[0].node), prefix) else {};
        assert all == ([Ok(ObjectFor(p, meta))] + tail.0, queued + tail.1);
        assert RefEntries(dir, es, prefix) == {Ok(ObjectFor(p, meta))} + sub + refTail;
        RefQueueAppend(queued, tail.1, prefix);
        assert RefQueue(queued, prefix) == sub by {
          if queued != [] { assert queued[1..] == []; }
        }
        ElemsCons(Ok(ObjectFor(p, meta)), tail.0);
        SetShuffle({Ok(ObjectFor(p, meta))}, sub, Elems(tail.0), RefQueue(tail.1, prefix));
      } else {
        assert all == tail;
        assert RefEntries(dir, es, prefix) == refTail;
      }
    }
  }

  lemma ElemsCons<T>(x: T, s: seq<T>)
    ensures Elems([x] + s) == {x} + Elems(s)
  {
    assert forall y :: y in [x] + s <==> y == x || y in s;
  }

  lemma SetShuffle<T>(a: set<T>, b: set<T>, c: set<T>, d: set<T>)
    ensures (a + c) + (b + d) == (a + b) + (c + d)
  {
  }

  /**
   * The breadth-first walk and the depth-first reference agree: a walk emits exactly the
   * items of its queued directories' reference listings.
   */
  lemma {:induction false} WalkMatchesReference(q: seq<Work>, prefix: ObjectPath)
    ensures Elems(Walk(q, prefix)) == RefQueue(q, prefix)
    decreases QueueSize(q)
  {
    if q != [] {
      var (out, found) := Visit(q[0], prefix);
      QueueSizeAppend(q[1..], found);
      WalkMatchesReference(q[1..] + found, prefix);
      RefQueueAppend(q[1..], found, prefix);
      match q[0].node {
        case DirNode(es) => ScanMatchesReference(q[0].path, es, prefix);
        case _ => assert found == [];
      }
      var rest := Walk(q[1..] + found, prefix);
      assert Walk(q, prefix) == out + rest;
      assert Elems(out + rest) == Elems(out) + Elems(rest);
    }
  }

  // ---- Breadth-first order: parents before children ----

  /** Every entry name in the tree is a real name (hosts never report an empty one). */
  predicate Named(n: Node)
    decreases n
  {
    n.DirNode? ==> forall i | 0 <= i < |n.entries| :: n.entries[i].name != "" && Named(n.entries[i].node)
  }

  function Depth(p: ObjectPath): nat {
    |Segments(p)|
  }

  /** The queue holds named subtrees in order of depth, spanning at most one level. */
  predicate Layered(q: seq<Work>) {
    && (forall i | 0 <= i < |q| :: Named(q[i].node))
    && (forall i, j | 0 <= i < j < |q| :: Depth(q[i].path) <= Depth(q[j].path) <= Depth(q[0].path) + 1)
  }

  /** The objects of a result sequence never get shallower. */
  predicate DepthOrdered(r: seq<StorageResult<Object>>) {
    forall i, j | 0 <= i < j < |r| && r[i].Ok? && r[j].Ok? :: Depth(r[i].value.path) <= Depth(r[j].value.path)
  }

  /** Every object of the run lies at depth `d`. */
  predicate AllAtDepth(r: seq<StorageResult<Object>>, d: nat) {
    forall i | 0 <= i < |r| && r[i].Ok? :: Depth(r[i].value.path) == d
  }

  /** Every queued directory lies at depth `d` and is named throughout. */
  predicate QueuedAtDepth(q: seq<Work>, d: nat) {
    forall i | 0 <= i < |q| :: Depth(q[i].path) == d && Named(q[i].node)
  }

  /** No object of the run lies above depth `d`. */
  predicate NoneAbove(r: seq<StorageResult<Object>>, d: nat) {
    forall i | 0 <= i < |r| && r[i].Ok? :: d <= Depth(r[i].value.path)
  }

  /** Everything a scan emits or queues lies one level below the scanned directory. */
  lemma {:induction false} ScanOneLevel(dir: ObjectPath, es: seq<Entry>, prefix: ObjectPath)
    requires forall i | 0 <= i < |es| :: es[i].name != "" && Named(es[i].node)
    ensures AllAtDepth(ScanEntries(dir, es, prefix).0, Depth(dir) + 1)
    ensures QueuedAtDepth(ScanEntries(dir, es, prefix).1, Depth(dir) + 1)
  {
    if es != [] {
      ScanOneLevel(dir, es[1..], prefix);
      var p := EntryPath(dir, es[0]);
      var meta := MetaOf(es[0].node);
      var tail := ScanEntries(dir, es[1..], prefix);
      var all := ScanEntries(dir, es, prefix);
      if StartsWith(p, prefix) {
        var queued := if meta == Some(DirMeta) then [Work(p, es[0].node)] else [];
        assert all == ([Ok(ObjectFor(p, meta))] + tail.0, queued + tail.1);
        assert Depth(p) == Depth(dir) + 1;
        AllAtDepthCons(Ok(ObjectFor(p, meta)), tail.0, Depth(dir) + 1);
        QueuedAtDepthAppend(queued, tail.1, Depth(dir) + 1);
      } else {
        assert all == tail;
      }
    }
  }

  lemma AllAtDepthCons(x: StorageResult<Object>, r: seq<StorageResult<Object>>, d: nat)
    requires x.Ok? ==> Depth(x.value.path) == d
    requires AllAtDepth(r, d)
    ensures AllAtDepth([x] + r, d)
  {
    assert forall i | 1 <= i < |[x] + r| :: ([x] + r)[i] == r[i - 1];
  }

  lemma QueuedAtDepthAppend(a: seq<Work>, b: seq<Work>, d: nat)
    requires QueuedAtDepth(a, d) && QueuedAtDepth(b, d)
    ensures QueuedAtDepth(a + b, d)
  {
    assert forall i | |a| <= i < |a + b| :: (a + b)[i] == b[i - |a|];
  }

  lemma VisitOneLevel(w: Work, prefix: ObjectPath)
    requires Named(w.node)
    ensures AllAtDepth(Visit(w, prefix).0, Depth(w.path) + 1)
    ensures QueuedAtDepth(Visit(w, prefix).1, Depth(w.path) + 1)
  {
    match w.node {
      case DirNode(es) => ScanOneLevel(w.path, es, prefix);
      case _ =>
    }
  }

  /** After a directory one level below the queue's head is listed, the queue stays layered. */
  lemma LayeredNext(q: seq<Work>, found: seq<Work>)
    requires Layered(q) && q != []
    requires QueuedAtDepth(found, Depth(q[0].path) + 1)
    ensures Layered(q[1..] + found)
    ensures q[1..] + found != [] ==> Depth(q[0].path) <= Depth((q[1..] + found)[0].path)
  {
    var d := Depth(q[0].path);
    var q' := q[1..] + found;
    var n := |q| - 1;
    assert forall i | 0 <= i < n :: q'[i] == q[i + 1];
    assert forall i | n <= i < |q'| :: q'[i] == found[i - n];
    assert forall i | 0 <= i < |q'| :: Named(q'[i].node) && d <= Depth(q'[i].path) <= d + 1;
  }

  /** Two depth-ordered runs, the second no shallower than the first, make a depth-ordered run. */
  lemma DepthOrderedAppend(out: seq<StorageResult<Object>>, rest: seq<StorageResult<Object>>, d: nat)
    requires AllAtDepth(out, d) && NoneAbove(rest, d) && DepthOrdered(rest)
    ensures DepthOrdered(out + rest) && NoneAbove(out + rest, d)
  {
    var all := out + rest;
    assert forall i | |out| <= i < |all| :: all[i] == rest[i - |out|];
  }

  /**
   * A breadth-first walk over a layered queue emits objects in order of depth, none shallower
   * than one level below the first queued directory.
   */
  lemma {:induction false} WalkDepthOrdered(q: seq<Work>, prefix: ObjectPath)
    requires Layered(q)
    ensures DepthOrdered(Walk(q, prefix))
    ensures q != [] ==> NoneAbove(Walk(q, prefix), Depth(q[0].path) + 1)
    decreases QueueSize(q)
  {
    if q != [] {
      var v := Visit(q[0], prefix);
      QueueSizeAppend(q[1..], v.1);
      var d := Depth(q[0].path);
      VisitOneLevel(q[0], prefix);
      LayeredNext(q, v.1);
      var q' := q[1..] + v.1;
      WalkDepthOrdered(q', prefix);
      var rest := Walk(q', prefix);
      assert Walk(q, prefix) == v.0 + rest;
      assert NoneAbove(rest, d + 1) by {
        if q' != [] { assert d <= Depth(q'[0].path); }
      }
      DepthOrderedAppend(v.0, rest, d + 1);
    }
  }

  /** The local listing emits a directory before anything inside it: objects come in order of depth. */
  lemma ListingDepthOrdered(root: Node, prefix: ObjectPath)
    requires Named(root)
    ensures DepthOrdered(ListObjects(root, prefix))
  {
    var start := PopPart(prefix);
    match Lookup(root, Segments(start)) {
      case Err(e) =>
      case Ok(n) =>
        LookupNamed(root, Segments(start));
        WalkDepthOrdered([Work(start, n)], prefix);
    }
  }

  lemma {:induction false} LookupNamed(root: Node, segs: seq<string>)
    requires Named(root) && Lookup(root, segs).Ok?
    ensures Named(Lookup(root, segs).value)
    decreases |segs|
  {
    if segs != [] {
      var i := FindEntry(root.entries, segs[0]).value;
      LookupNamed(root.entries[i].node, segs[1..]);
    }
  }

  // ---- Completeness: every matching entry below the start directory is listed ----

  /** Every object below a directory whose path matches the prefix, looking into every readable directory. */
  function UnderNode(path: ObjectPath, n: Node, prefix: ObjectPath): set<Object>
    decreases n
  {
    match n
    case DirNode(es) => UnderEntries(path, es, prefix)
    case _ => {}
  }

  function UnderEntries(dir: ObjectPath, es: seq<Entry>, prefix: ObjectPath): set<Object>
    decreases es
  {
    if es == [] then {}
    else
      var p := EntryPath(dir, es[0]);
      (if StartsWith(p, prefix) then {ObjectFor(p, MetaOf(es[0].node))} else {})
      + UnderNode(p, es[0].node, prefix) + UnderEntries(dir, es[1..], prefix)
  }

  function OkObjects(s: set<StorageResult<Object>>): set<Object> {
    set r | r in s && r.Ok? :: r.value
  }

  lemma OkObjectsUnion(a: set<StorageResult<Object>>, b: set<StorageResult<Object>>)
    ensures OkObjects(a + b) == OkObjects(a) + OkObjects(b)
  {
  }

  lemma OkObjectsOk(x: Object)
    ensures OkObjects({Ok(x)}) == {x}
  {
    var r: StorageResult<Object> := Ok(x);
    assert r in {r};
  }

  lemma OkObjectsErr(e: StorageError)
    ensures OkObjects({Err(e)}) == {}
  {
  }

  /** The listing from `dir` can reach a match: the prefix is at most one level deeper, and not a directory prefix when it is. */
  predicate Reaches(dir: ObjectPath, prefix: ObjectPath) {
    |Segments(prefix)| <= Depth(dir) + 1 && (|Segments(prefix)| == Depth(dir) + 1 ==> !IsDirPrefix(prefix))
  }

  /** Below a path that already diverges from the prefix, nothing matches. */
  lemma {:induction false} NothingBelowMismatch(p: ObjectPath, n: Node, prefix: ObjectPath)
    requires Named(n)
    requires |Segments(prefix)| <= Depth(p) && Segments(p)[..|Segments(prefix)|] != Segments(prefix)
    ensures UnderNode(p, n, prefix) == {}
    decreases n
  {
    if n.DirNode? {
      NothingBelowMismatchEntries(p, n.entries, prefix);
    }
  }

  lemma {:induction false} NothingBelowMismatchEntries(dir: ObjectPath, es: seq<Entry>, prefix: ObjectPath)
    requires forall i | 0 <= i < |es| :: es[i].name != "" && Named(es[i].node)
    requires |Segments(prefix)| <= Depth(dir) && Segments(dir)[..|Segments(prefix)|] != Segments(prefix)
    ensures UnderEntries(dir, es, prefix) == {}
    decreases es
  {
    if es != [] {
      var p := EntryPath(dir, es[0]);
      var k := |Segments(prefix)|;
      assert Segments(p) == Segments(dir) + [es[0].name];
      assert Segments(p)[..k] == Segments(dir)[..k];
      assert !StartsWith(p, prefix);
      NothingBelowMismatch(p, es[0].node, prefix);
      NothingBelowMismatchEntries(dir, es[1..], prefix);
    }
  }

  /**
   * The pruned reference listing of a directory finds every matching object below it: skipping
   * non-matching directories loses nothing.
   */
  lemma {:induction false} RefWalkComplete(w: Work, prefix: ObjectPath)
    requires Named(w.node) && Reaches(w.path, prefix)
    ensures OkObjects(RefWalk(w, prefix)) == UnderNode(w.path, w.node, prefix)
    decreases w.node
  {
    if w.node.DirNode? {
      RefEntriesComplete(w.path, w.node.entries, prefix);
    } else {
      OkObjectsErr(ReadDirError(w));
    }
  }

  lemma {:induction false} RefEntriesComplete(dir: ObjectPath, es: seq<Entry>, prefix: ObjectPath)
    requires forall i | 0 <= i < |es| :: es[i].name != "" && Named(es[i].node)
    requires Reaches(dir, prefix)
    ensures OkObjects(RefEntries(dir, es, prefix)) == UnderEntries(dir, es, prefix)
    decreases es
  {
    if es != [] {
      var p := EntryPath(dir, es[0]);
      var node := es[0].node;
      var meta := MetaOf(node);
      var k := |Segments(prefix)|;
      assert Segments(p) == Segments(dir) + [es[0].name] && !IsDirPrefix(p);
      RefEntriesComplete(dir, es[1..], prefix);
      var head := if StartsWith(p, prefix) then
          {Ok(ObjectFor(p, meta))} + (if meta == Some(DirMeta) then RefWalk(Work(p, node), prefix) else {})
        else {};
      assert RefEntries(dir, es, prefix) == head + RefEntries(dir, es[1..], prefix);
      OkObjectsUnion(head, RefEntries(dir, es[1..], prefix));
      if StartsWith(p, prefix) {
        OkObjectsUnion({Ok(ObjectFor(p, meta))}, if meta == Some(DirMeta) then RefWalk(Work(p, node), prefix) else {});
        OkObjectsOk(ObjectFor(p, meta));
        if node.DirNode? {
          RefWalkComplete(Work(p, node), prefix);
        } else if node.LockedDir? {
          assert RefWalk(Work(p, node), prefix) == {Err(ReadDirError(Work(p, node)))};
          OkObjectsErr(ReadDirError(Work(p, node)));
        }
      } else {
        assert Segments(p)[..k] != Segments(prefix);
        NothingBelowMismatch(p, node, prefix);
      }
    }
  }

  /** Listing the start directory reaches every match: the prefix with its last part popped is at most one level up. */
  lemma StartReaches(prefix: ObjectPath)
    requires NamedSegments(Segments(prefix))
    ensures Reaches(PopPart(prefix), prefix)
  {
    var start := PopPart(prefix);
    if |prefix.parts| > 0 && !IsDirPrefix(prefix) {
      var k := |prefix.parts|;
      assert Segments(prefix) == prefix.parts;
      assert start.parts == prefix.parts[..k - 1];
      assert k >= 2 ==> start.parts[k - 2] == prefix.parts[k - 2];
      assert Segments(start) == start.parts;
    } else if |prefix.parts| > 0 {
      var k := |prefix.parts|;
      assert start.parts == Segments(prefix);
      assert k >= 2 ==> start.parts[k - 2] == Segments(prefix)[k - 2];
      assert Segments(start) == start.parts;
    }
  }

  /**
   * `FileLister` lists exactly the matching objects below its start directory: an object is
   * emitted if and only if it lies below the start directory and its path matches the prefix.
   */
  lemma ListingComplete(root: Node, prefix: ObjectPath)
    requires Named(root) && NamedSegments(Segments(prefix))
    requires Lookup(root, Segments(PopPart(prefix))).Ok?
    ensures forall o :: Ok(o) in ListObjects(root, prefix) <==>
      o in UnderNode(PopPart(prefix), Lookup(root, Segments(PopPart(prefix))).value, prefix)
  {
    var start := PopPart(prefix);
    var n := Lookup(root, Segments(start)).value;
    LookupNamed(root, Segments(start));
    StartReaches(prefix);
    WalkMatchesReference([Work(start, n)], prefix);
    assert RefQueue([Work(start, n)], prefix) == RefWalk(Work(start, n), prefix) by {
      assert [Work(start, n)][1..] == [];
    }
    RefWalkComplete(Work(start, n), prefix);
    assert forall o :: Ok(o) in ListObjects(root, prefix) <==> Ok(o) in RefWalk(Work(start, n), prefix);
  }
}
