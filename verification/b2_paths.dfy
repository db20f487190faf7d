/**
 * How the B2 backend maps between its paths and B2's buckets and file names
 * (file-store/src/backends/b2.rs: `new_object` and the bucket selection of `list_objects`).
 * The first segment of a full path names the bucket; the rest is the file name in it.
 */
module B2Paths {
  import opened Wrappers
  import opened Paths
  import opened Types
  import opened B2Listing

  /** A bucket as `b2_list_buckets` reports it. */
  datatype Bucket = Bucket(bucketId: string, bucketName: string)

  /** `unshift_part` applied `n` times. */
  function UnshiftTimes(p: ObjectPath, n: nat): (r: ObjectPath)
    ensures n <= |p.parts| && NamedSegments(p.parts) ==> r.parts == p.parts[n..]
    decreases n
  {
    if n == 0 then p
    else
      var next := UnshiftPart(p).1;
      assert NamedSegments(p.parts) && 0 < |p.parts| ==> Segments(p) == p.parts && NamedSegments(next.parts);
      UnshiftTimes(next, n - 1)
  }

  /**
   * `new_object`: the bucket is put in front of the file name; a name that is a directory
   * prefix becomes a Directory with the marker popped, anything else a File; then one leading
   * part is dropped per segment of the backend's path prefix.
   */
  function NewObject(bucket: string, info: FileInfo, prefix: ObjectPath): (o: Object)
    ensures o.size == info.contentLength && o.internals == B2Internals
    ensures bucket != "" ==>
      (o.objectType == Directory <==> 0 < |info.fileName.parts| && IsDirPrefix(info.fileName))
    ensures o.objectType != Directory ==> o.objectType == File
  {
    var path := ShiftPart(info.fileName, bucket);
    var isDir := IsDirPrefix(path);
    var path' := if isDir then PopPart(path) else path;
    Object(B2Internals, if isDir then Directory else File, UnshiftTimes(path', |Segments(prefix)|), info.contentLength)
  }

  /**
   * The object a listing reports lies under the backend prefix: the prefix's segments followed
   * by the object's parts give back the bucket and the file's segments.
   */
  lemma NewObjectUnderPrefix(bucket: string, info: FileInfo, prefix: ObjectPath)
    requires bucket != "" && NamedSegments(Segments(info.fileName))
    requires |Segments(prefix)| <= 1 + |Segments(info.fileName)|
    requires Segments(prefix) == ([bucket] + Segments(info.fileName))[..|Segments(prefix)|]
    ensures Segments(prefix) + NewObject(bucket, info, prefix).path.parts == [bucket] + Segments(info.fileName)
  {
    var full := [bucket] + Segments(info.fileName);
    var path := ShiftPart(info.fileName, bucket);
    var path' := if IsDirPrefix(path) then PopPart(path) else path;
    assert path'.parts == full;
    assert NamedSegments(full) by {
      forall i | 0 <= i < |full| ensures full[i] != "" {
        if i > 0 { assert full[i] == Segments(info.fileName)[i - 1]; }
      }
    }
    assert full == full[..|Segments(prefix)|] + full[|Segments(prefix)|..];
  }

  /** What `list_objects` asks B2 for: the bucket name, the file-name prefix inside it and the bucket filter. */
  datatype BucketQuery = BucketQuery(bucket: string, filePart: ObjectPath, bucketName: Option<string>)

  /**
   * The bucket selection of `list_objects`: the first segment of backend prefix joined with the
   * requested prefix is the bucket; the bucket name is pinned unless the request is a bare
   * partial bucket name (one segment, not a directory prefix).
   */
  function PlanBuckets(backendPrefix: ObjectPath, prefix: ObjectPath): (q: BucketQuery)
    ensures var full := Join(backendPrefix, prefix);
      && (q.bucketName.Some? ==> q.bucketName.value == q.bucket)
      && (q.bucketName.None? <==> |Segments(full)| == 1 && !IsDirPrefix(full))
      && (!IsEmpty(full) ==> ShiftPart(q.filePart, q.bucket) == full)
      && (IsEmpty(full) ==> q.bucket == "" && q.filePart == full)
  {
    var full := Join(backendPrefix, prefix);
    var isDir := IsDirPrefix(full);
    var (first, filePart) := UnshiftPart(full);
    var bucket := if first.Some? then first.value else "";
    assert !IsEmpty(filePart) ==> 1 < |Segments(full)|;
    BucketQuery(bucket, filePart, if !IsEmpty(filePart) || isDir then Some(bucket) else None)
  }

  /** The bucket filter of `list_objects`: only buckets whose name starts with the requested bucket, in order. */
  function SelectBuckets(buckets: seq<Bucket>, bucket: string): (r: seq<Bucket>)
    ensures |r| <= |buckets|
    ensures forall b :: b in r <==> b in buckets && StringStartsWith(b.bucketName, bucket)
  {
    if buckets == [] then []
    else (if StringStartsWith(buckets[0].bucketName, bucket) then [buckets[0]] else []) + SelectBuckets(buckets[1..], bucket)
  }

  /** One `b2_list_file_names` request per selected bucket, with the file part as the name prefix. */
  function ListingRequests(selected: seq<Bucket>, q: BucketQuery): (r: seq<ListFileNamesRequest>)
    ensures |r| == |selected|
    ensures forall i | 0 <= i < |r| ::
      r[i] == ListFileNamesRequest(selected[i].bucketId, None, None, Some(ToString(q.filePart)), None)
  {
    if selected == [] then []
    else [ListFileNamesRequest(selected[0].bucketId, None, None, Some(ToString(q.filePart)), None)]
         + ListingRequests(selected[1..], q)
  }

  /** `and_then(new_object)` on one item: a file becomes its object, an error passes through. */
  function ToObject(bucketName: string, item: StorageResult<FileInfo>, backendPrefix: ObjectPath): (r: StorageResult<Object>)
    ensures r.Err? <==> item.Err?
    ensures item.Err? ==> r.error == item.error
  {
    match item
    case Ok(f) => Ok(NewObject(bucketName, f, backendPrefix))
    case Err(e) => Err(e)
  }

  /** `and_then(new_object)` over one bucket's stream, item by item and in order. */
  function ToObjects(bucketName: string, items: seq<StorageResult<FileInfo>>, backendPrefix: ObjectPath)
    : (r: seq<StorageResult<Object>>)
    ensures |r| == |items|
    ensures forall i | 0 <= i < |r| :: r[i] == ToObject(bucketName, items[i], backendPrefix)
  {
    if items == [] then []
    else [ToObject(bucketName, items[0], backendPrefix)] + ToObjects(bucketName, items[1..], backendPrefix)
  }

  /**
   * One bucket's listing end to end: once the stream has ended, its objects are the pages'
   * files mapped through `new_object`, in page order.
   */
  lemma {:induction false} ToObjectsOks(bucketName: string, items: seq<StorageResult<FileInfo>>, backendPrefix: ObjectPath)
    ensures |Oks(ToObjects(bucketName, items, backendPrefix))| == |Oks(items)|
    ensures forall i | 0 <= i < |Oks(items)| ::
      Oks(ToObjects(bucketName, items, backendPrefix))[i] == NewObject(bucketName, Oks(items)[i], backendPrefix)
  {
    if items != [] {
      ToObjectsOks(bucketName, items[1..], backendPrefix);
      var r := ToObjects(bucketName, items, backendPrefix);
      assert r[1..] == ToObjects(bucketName, items[1..], backendPrefix);
      assert Oks(r) == (if r[0].Ok? then [r[0].value] else []) + Oks(r[1..]);
      assert Oks(items) == (if items[0].Ok? then [items[0].value] else []) + Oks(items[1..]);
    }
  }
}
