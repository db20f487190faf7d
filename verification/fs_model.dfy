/**
 * The host filesystem the local backend runs on, as a tree below the backend's root directory.
 * The host calls of file-store/src/backends/file.rs (`symlink_metadata`, `read_dir`,
 * `remove_file`, `remove_dir`, `File::create`, writes) are functions over this tree, each
 * failing with an `IoError` as the host would.
 */
module FsModel {
  import opened Wrappers
  import opened Types
  import opened FileErrors

  /**
   * A host entry: a regular file, a directory, a symbolic link, a directory whose contents
   * cannot be read (its metadata can) and an entry whose metadata cannot be read either.
   */
  datatype Node =
    | FileNode(data: Data)
    | DirNode(entries: seq<Entry>)
    | SymlinkNode
    | LockedDir(denied: IoError)
    | BrokenNode(failure: IoError)

  datatype Entry = Entry(name: string, node: Node)

  /** What `symlink_metadata` reports: a file and its length, a directory, or anything else. */
  datatype Meta = FileMeta(len: nat) | DirMeta | OtherMeta

  const NoSuchEntry := IoError(IoNotFound, "No such file or directory")
  const NotADirectory := IoError(IoOther, "Not a directory")
  const IsADirectory := IoError(IoOther, "Is a directory")
  const DirectoryNotEmpty := IoError(IoOther, "Directory not empty")
  const RootRetained := IoError(IoOther, "The storage root is not removed")

  /** The position of the first entry called `name`. */
  function FindEntry(es: seq<Entry>, name: string): (r: Option<nat>)
    ensures r.Some? ==> r.value < |es| && es[r.value].name == name
    ensures r.Some? ==> forall j | 0 <= j < r.value :: es[j].name != name
    ensures r.None? ==> forall j | 0 <= j < |es| :: es[j].name != name
  {
    if es == [] then None
    else if es[0].name == name then Some(0)
    else match FindEntry(es[1..], name)
      case None => None
      case Some(i) => Some(i + 1)
  }

  /** The entry reached by following the named segments from `n`. */
  function Lookup(n: Node, segs: seq<string>): (r: Result<Node, IoError>)
    decreases |segs|
  {
    if segs == [] then Ok(n)
    else match n
      case DirNode(es) =>
        (match FindEntry(es, segs[0])
         case None => Err(NoSuchEntry)
         case Some(i) => Lookup(es[i].node, segs[1..]))
      case LockedDir(e) => Err(e)
      case BrokenNode(e) => Err(e)
      case _ => Err(NotADirectory)
  }

  /** The entries with `name` replaced by `repl` (or appended), or all of them removed when `repl` is None. */
  function SetEntry(es: seq<Entry>, name: string, repl: Option<Node>): (r: seq<Entry>)
    ensures repl.None? ==> FindEntry(r, name).None?
    ensures repl.Some? ==> FindEntry(r, name).Some? && r[FindEntry(r, name).value].node == repl.value
  {
    match repl
    case None => RemoveNamed(es, name)
    case Some(x) =>
      match FindEntry(es, name)
      case Some(i) =>
        var r := es[i := Entry(name, x)];
        assert FindEntry(r, name) == Some(i) by { FindEntryFirst(r, name, i); }
        r
      case None =>
        var r := es + [Entry(name, x)];
        assert FindEntry(r, name) == Some(|es|) by { FindEntryFirst(r, name, |es|); }
        r
  }

  /** The first entry called `name` is found where it is. */
  lemma {:induction false} FindEntryFirst(es: seq<Entry>, name: string, i: nat)
    requires i < |es| && es[i].name == name && forall j | 0 <= j < i :: es[j].name != name
    ensures FindEntry(es, name) == Some(i)
  {
    if i > 0 {
      FindEntryFirst(es[1..], name, i - 1);
    }
  }

  function RemoveNamed(es: seq<Entry>, name: string): (r: seq<Entry>)
    ensures forall j | 0 <= j < |r| :: r[j].name != name
  {
    if es == [] then []
    else (if es[0].name == name then [] else [es[0]]) + RemoveNamed(es[1..], name)
  }

  /**
   * The tree with the entry at `segs` set to `repl` (or removed): every directory on the way
   * must exist and be readable.
   */
  function Put(n: Node, segs: seq<string>, repl: Option<Node>): (r: Result<Node, IoError>)
    decreases |segs|
  {
    if segs == [] then Err(RootRetained)
    else match n
      case DirNode(es) =>
        if |segs| == 1 then Ok(DirNode(SetEntry(es, segs[0], repl)))
        else
          (match FindEntry(es, segs[0])
           case None => Err(NoSuchEntry)
           case Some(i) =>
             match Put(es[i].node, segs[1..], repl)
             case Err(e) => Err(e)
             case Ok(c) => Ok(DirNode(es[i := Entry(es[i].name, c)])))
      case LockedDir(e) => Err(e)
      case BrokenNode(e) => Err(e)
      case _ => Err(NotADirectory)
  }

  /** What was put is what is found there afterwards. */
  lemma {:induction false} LookupAfterPut(n: Node, segs: seq<string>, x: Node)
    requires Put(n, segs, Some(x)).Ok?
    ensures Lookup(Put(n, segs, Some(x)).value, segs) == Ok(x)
    decreases |segs|
  {
    var es := n.entries;
    if |segs| > 1 {
      var i := FindEntry(es, segs[0]).value;
      LookupAfterPut(es[i].node, segs[1..], x);
      var c := Put(es[i].node, segs[1..], Some(x)).value;
      var es' := es[i := Entry(es[i].name, c)];
      FindEntryFirst(es', segs[0], i);
    }
  }

  /** An entry that is found can be replaced: every directory on its way exists. */
  lemma {:induction false} PutOverExisting(n: Node, segs: seq<string>, repl: Option<Node>)
    requires segs != [] && Lookup(n, segs).Ok?
    ensures Put(n, segs, repl).Ok?
    decreases |segs|
  {
    if |segs| > 1 {
      var i := FindEntry(n.entries, segs[0]).value;
      PutOverExisting(n.entries[i].node, segs[1..], repl);
    }
  }

  /** What was removed is not found afterwards. */
  lemma {:induction false} LookupAfterRemove(n: Node, segs: seq<string>)
    requires Put(n, segs, None).Ok?
    ensures Lookup(Put(n, segs, None).value, segs) == Err(NoSuchEntry)
    decreases |segs|
  {
    var es := n.entries;
    if |segs| > 1 {
      var i := FindEntry(es, segs[0]).value;
      LookupAfterRemove(es[i].node, segs[1..]);
      var c := Put(es[i].node, segs[1..], None).value;
      var es' := es[i := Entry(es[i].name, c)];
      FindEntryFirst(es', segs[0], i);
    }
  }

  /** Nothing outside the changed path moves: an entry on a diverging path is found as before. */
  lemma {:induction false} PutFrame(n: Node, segs: seq<string>, repl: Option<Node>, other: seq<string>)
    requires Put(n, segs, repl).Ok?
    requires !(segs <= other) && !(other <= segs)
    ensures Lookup(Put(n, segs, repl).value, other) == Lookup(n, other)
    decreases |segs|
  {
    var es := n.entries;
    var r := Put(n, segs, repl).value;
    if segs[0] != other[0] {
      var es' := r.entries;
      if |segs| == 1 {
        SetEntryFrame(es, segs[0], repl, other[0]);
      } else {
        var i := FindEntry(es, segs[0]).value;
        FindEntryOther(es, i, Entry(es[i].name, Put(es[i].node, segs[1..], repl).value), other[0]);
      }
    } else {
      assert |segs| > 1 && |other| > 1;
      var i := FindEntry(es, segs[0]).value;
      PutFrame(es[i].node, segs[1..], repl, other[1..]);
      var c := Put(es[i].node, segs[1..], repl).value;
      FindEntryFirst(es[i := Entry(es[i].name, c)], segs[0], i);
    }
  }

  /** Replacing the entry at `i` by one of the same name does not change where another name is found. */
  lemma FindEntryOther(es: seq<Entry>, i: nat, e: Entry, name: string)
    requires i < |es| && e.name == es[i].name && name != e.name
    ensures FindEntry(es[i := e], name) == FindEntry(es, name)
    ensures FindEntry(es, name).Some? ==> es[i := e][FindEntry(es, name).value] == es[FindEntry(es, name).value]
  {
    var es' := es[i := e];
    match FindEntry(es, name)
    case Some(k) => FindEntryFirst(es', name, k);
    case None =>
  }

  /** Setting or removing one name leaves the first entry of every other name as it was. */
  lemma SetEntryFrame(es: seq<Entry>, name: string, repl: Option<Node>, other: string)
    requires name != other
    ensures var es' := SetEntry(es, name, repl);
      && FindEntry(es', other).Some? == FindEntry(es, other).Some?
      && (FindEntry(es, other).Some? ==> es'[FindEntry(es', other).value] == es[FindEntry(es, other).value])
  {
    match repl
    case None => RemoveNamedFind(es, name, other);
    case Some(x) =>
      match FindEntry(es, name)
      case Some(i) => FindEntryOther(es, i, Entry(name, x), other);
      case None =>
        match FindEntry(es, other)
        case Some(k) => FindEntryFirst(es + [Entry(name, x)], other, k);
        case None =>
          var es' := es + [Entry(name, x)];
          assert forall j | 0 <= j < |es'| :: es'[j].name != other;
  }

  lemma {:induction false} RemoveNamedFind(es: seq<Entry>, name: string, other: string)
    requires name != other
    ensures var es' := RemoveNamed(es, name);
      && FindEntry(es', other).Some? == FindEntry(es, other).Some?
      && (FindEntry(es, other).Some? ==> es'[FindEntry(es', other).value] == es[FindEntry(es, other).value])
  {
    if es != [] {
      RemoveNamedFind(es[1..], name, other);
      var es' := RemoveNamed(es, name);
      var tail := RemoveNamed(es[1..], name);
      assert [es[0]] + es[1..] == es;
      if es[0].name == other {
        assert es' == [es[0]] + tail;
        assert FindEntry(es', other) == Some(0) && FindEntry(es, other) == Some(0);
      } else {
        FindEntryShift(es[0], es[1..], other);
        if es[0].name == name {
          assert es' == tail;
          if FindEntry(es[1..], other).Some? {
            assert es[FindEntry(es, other).value] == es[1..][FindEntry(es[1..], other).value];
          }
        } else {
          assert es' == [es[0]] + tail;
          FindEntryShift(es[0], tail, other);
          if FindEntry(es[1..], other).Some? {
            assert es'[FindEntry(es', other).value] == tail[FindEntry(tail, other).value];
            assert es[FindEntry(es, other).value] == es[1..][FindEntry(es[1..], other).value];
          }
        }
      }
    }
  }

  /** Past an entry of another name, a name is found where the rest finds it, one position on. */
  lemma FindEntryShift(e: Entry, es: seq<Entry>, name: string)
    requires e.name != name
    ensures FindEntry([e] + es, name) == (match FindEntry(es, name) case None => None case Some(i) => Some(i + 1))
  {
    assert ([e] + es)[1..] == es;
  }

  /** A failed lookup fails the same way for every path below it: nothing is found under a missing entry. */
  lemma {:induction false} LookupBelowFailure(n: Node, segs: seq<string>, rest: seq<string>)
    requires Lookup(n, segs).Err?
    ensures Lookup(n, segs + rest) == Lookup(n, segs)
    decreases |segs|
  {
    assert (segs + rest)[0] == segs[0];
    if n.DirNode? && FindEntry(n.entries, segs[0]).Some? {
      var i := FindEntry(n.entries, segs[0]).value;
      assert (segs + rest)[1..] == segs[1..] + rest;
      LookupBelowFailure(n.entries[i].node, segs[1..], rest);
    }
  }

  /** `symlink_metadata`: links are not followed; an entry whose metadata cannot be read fails. */
  function Metadata(root: Node, segs: seq<string>): (r: Result<Meta, IoError>)
    ensures r.Ok? <==> Lookup(root, segs).Ok? && !Lookup(root, segs).value.BrokenNode?
    ensures r == Ok(DirMeta) <==> Lookup(root, segs).Ok? && (Lookup(root, segs).value.DirNode? || Lookup(root, segs).value.LockedDir?)
    ensures forall d :: r == Ok(FileMeta(|d|)) <== Lookup(root, segs) == Ok(FileNode(d))
  {
    match Lookup(root, segs)
    case Err(e) => Err(e)
    case Ok(n) => match MetaOf(n) case None => Err(n.failure) case Some(m) => Ok(m)
  }

  /** The metadata of one entry, None when it cannot be read. */
  function MetaOf(n: Node): (r: Option<Meta>)
    ensures r.None? <==> n.BrokenNode?
  {
    match n
    case FileNode(d) => Some(FileMeta(|d|))
    case DirNode(_) => Some(DirMeta)
    case LockedDir(_) => Some(DirMeta)
    case SymlinkNode => Some(OtherMeta)
    case BrokenNode(_) => None
  }

  /** `remove_file`: removes a file or link; a directory is refused. */
  function RemoveFile(root: Node, segs: seq<string>): (r: Result<Node, IoError>)
    ensures r.Ok? ==> Lookup(root, segs).Ok? && (Lookup(root, segs).value.FileNode? || Lookup(root, segs).value.SymlinkNode?)
    ensures r.Ok? ==> Lookup(r.value, segs) == Err(NoSuchEntry)
    ensures Lookup(root, segs).Err? ==> r == Err(Lookup(root, segs).error)
    ensures segs != [] && Lookup(root, segs).Ok? && (Lookup(root, segs).value.FileNode? || Lookup(root, segs).value.SymlinkNode?) ==>
      r.Ok?
  {
    match Lookup(root, segs)
    case Err(e) => Err(e)
    case Ok(n) =>
      match n
      case DirNode(_) => Err(IsADirectory)
      case LockedDir(_) => Err(IsADirectory)
      case BrokenNode(e) => Err(e)
      case _ =>
        var r := Put(root, segs, None);
        assert segs != [] ==> r.Ok? by { if segs != [] { PutOverExisting(root, segs, None); } }
        if r.Ok? then LookupAfterRemove(root, segs); r else r
  }

  /** `remove_dir`: removes an empty directory; anything else is refused. The storage root is kept. */
  function RemoveDir(root: Node, segs: seq<string>): (r: Result<Node, IoError>)
    ensures r.Ok? ==> Lookup(root, segs) == Ok(DirNode([])) && segs != []
    ensures r.Ok? ==> Lookup(r.value, segs) == Err(NoSuchEntry)
    ensures Lookup(root, segs).Ok? && Lookup(root, segs).value.DirNode? && Lookup(root, segs).value.entries != [] ==>
      r == Err(DirectoryNotEmpty)
  {
    match Lookup(root, segs)
    case Err(e) => Err(e)
    case Ok(n) =>
      match n
      case DirNode(es) =>
        if es != [] then Err(DirectoryNotEmpty)
        else
          var r := Put(root, segs, None);
          if r.Ok? then LookupAfterRemove(root, segs); r else r
      case LockedDir(e) => Err(e)
      case BrokenNode(e) => Err(e)
      case _ => Err(NotADirectory)
  }

  /** `File::create`: an empty file replaces whatever non-directory was there; the parent must exist. */
  function CreateFile(root: Node, segs: seq<string>): (r: Result<Node, IoError>)
    ensures r.Ok? ==> segs != [] && Lookup(r.value, segs) == Ok(FileNode([]))
    ensures Lookup(root, segs).Ok? && (Lookup(root, segs).value.DirNode? || Lookup(root, segs).value.LockedDir?) ==> r.Err?
  {
    match Lookup(root, segs)
    case Ok(DirNode(_)) => Err(IsADirectory)
    case Ok(LockedDir(_)) => Err(IsADirectory)
    case Ok(BrokenNode(e)) => Err(e)
    case _ =>
      var r := Put(root, segs, Some(FileNode([])));
      if r.Ok? then LookupAfterPut(root, segs, FileNode([])); r else r
  }

  /** The open file's contents after writes: the file holds exactly `data`. */
  function SetFile(root: Node, segs: seq<string>, data: Data): (r: Result<Node, IoError>)
    ensures r.Ok? ==> Lookup(r.value, segs) == Ok(FileNode(data))
    ensures segs != [] && Lookup(root, segs).Ok? ==> r.Ok?
  {
    var r := Put(root, segs, Some(FileNode(data)));
    assert segs != [] && Lookup(root, segs).Ok? ==> r.Ok? by {
      if segs != [] && Lookup(root, segs).Ok? { PutOverExisting(root, segs, Some(FileNode(data))); }
    }
    if r.Ok? then LookupAfterPut(root, segs, FileNode(data)); r else r
  }
}
