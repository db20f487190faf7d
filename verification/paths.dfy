/**
 * The path value every operation addresses. The source of `ObjectPath` is not part of this
 * model, so the type is given here by the behaviour its callers rely on: a sequence of parts
 * in which a trailing empty part marks a directory prefix (pushing "" makes a directory path),
 * and the empty path also counts as a directory prefix.
 */
module Paths {
  import opened Wrappers

  datatype ObjectPath = ObjectPath(parts: seq<string>)

  const EmptyPath := ObjectPath([])

  /** `is_dir_prefix`: the path is empty or ends with the directory marker. */
  predicate IsDirPrefix(p: ObjectPath) {
    |p.parts| == 0 || p.parts[|p.parts| - 1] == ""
  }

  /** `parts()`: the named segments, without the directory marker. */
  function Segments(p: ObjectPath): (s: seq<string>)
    ensures |s| <= |p.parts|
    ensures s == p.parts[..|s|]
    ensures |p.parts| - 1 <= |s|
  {
    if |p.parts| > 0 && p.parts[|p.parts| - 1] == "" then p.parts[..|p.parts| - 1] else p.parts
  }

  /** `is_empty`: no named segment. */
  predicate IsEmpty(p: ObjectPath) {
    |Segments(p)| == 0
  }

  /** `push_part`: appends a segment; pushing "" turns the path into a directory prefix. */
  function PushPart(p: ObjectPath, part: string): (r: ObjectPath)
    ensures IsDirPrefix(r) <==> part == ""
    ensures part != "" ==> Segments(r) == Segments(p) + [part]
    ensures part == "" ==> Segments(r) == Segments(p)
  {
    ObjectPath(Segments(p) + [part])
  }

  /** `pop_part`: drops the last part (the directory marker, when there is one). */
  function PopPart(p: ObjectPath): (r: ObjectPath)
    ensures |p.parts| > 0 ==> r.parts == p.parts[..|p.parts| - 1]
    ensures |p.parts| == 0 ==> r == p
  {
    if |p.parts| == 0 then p else ObjectPath(p.parts[..|p.parts| - 1])
  }

  /** `shift_part`: puts a segment in front (used to put a bucket name back). */
  function ShiftPart(p: ObjectPath, part: string): (r: ObjectPath)
    ensures |r.parts| == |p.parts| + 1 && r.parts[0] == part && r.parts[1..] == p.parts
  {
    ObjectPath([part] + p.parts)
  }

  /** `unshift_part`: removes and returns the first segment; an empty path is left as it is. */
  function UnshiftPart(p: ObjectPath): (r: (Option<string>, ObjectPath))
    ensures r.0.None? <==> IsEmpty(p)
    ensures r.0.None? ==> r.1 == p
    ensures r.0.Some? ==> [r.0.value] + r.1.parts == p.parts
  {
    if IsEmpty(p) then (None, p) else (Some(p.parts[0]), ObjectPath(p.parts[1..]))
  }

  /** `join`: the segments of `a` followed by the parts of `b`; joining the empty path keeps `a`. */
  function Join(a: ObjectPath, b: ObjectPath): (r: ObjectPath)
    ensures |b.parts| > 0 ==> Segments(r) == Segments(a) + Segments(b)
    ensures |b.parts| > 0 ==> (IsDirPrefix(r) <==> IsDirPrefix(b))
    ensures |b.parts| == 0 ==> r == a
  {
    if |b.parts| == 0 then a else ObjectPath(Segments(a) + b.parts)
  }

  /**
   * `starts_with`: the prefix's segments lead the candidate's; the directory flag takes part
   * only when the candidate is no longer than the prefix.
   */
  predicate StartsWith(p: ObjectPath, prefix: ObjectPath) {
    var ps := Segments(p);
    var qs := Segments(prefix);
    |qs| <= |ps| && ps[..|qs|] == qs && (|ps| <= |qs| ==> (IsDirPrefix(p) <==> IsDirPrefix(prefix)))
  }

  /** Every segment is named: no empty part hides inside the path. */
  predicate NamedSegments(s: seq<string>) {
    forall i | 0 <= i < |s| :: s[i] != ""
  }

  /** `q` names an entry directly inside the directory `p`. */
  predicate ChildOf(q: ObjectPath, p: ObjectPath) {
    |Segments(q)| == |Segments(p)| + 1 && Segments(q)[..|Segments(p)|] == Segments(p)
  }

  /** `to_string`: parts joined with '/'; a directory prefix ends with '/'. */
  function ToString(p: ObjectPath): string {
    JoinParts(p.parts)
  }

  function JoinParts(parts: seq<string>): string {
    if |parts| == 0 then ""
    else if |parts| == 1 then parts[0]
    else parts[0] + "/" + JoinParts(parts[1..])
  }

  /** `String::starts_with`, used for bucket names. */
  predicate StringStartsWith(s: string, prefix: string) {
    |prefix| <= |s| && s[..|prefix|] == prefix
  }

  lemma ShiftUnshift(p: ObjectPath, part: string)
    requires part != ""
    ensures UnshiftPart(ShiftPart(p, part)) == (Some(part), p)
  {
    var r := ShiftPart(p, part);
    assert r.parts[0] == part;
    assert Segments(r) != [] by {
      if |r.parts| == 1 { assert Segments(r) == r.parts; }
    }
  }

  lemma UnshiftShift(p: ObjectPath)
    requires !IsEmpty(p)
    ensures ShiftPart(UnshiftPart(p).1, UnshiftPart(p).0.value) == p
  {
  }

  /** A directory path made by pushing "" matches every entry pushed onto the directory. */
  lemma ChildStartsWithDir(d: ObjectPath, name: string)
    requires name != ""
    ensures StartsWith(PushPart(d, name), PushPart(d, ""))
    ensures ChildOf(PushPart(d, name), d)
  {
  }

  /** A candidate longer than the prefix that does not match has no matching descendants. */
  lemma StartsWithExtends(p: ObjectPath, prefix: ObjectPath, name: string)
    requires name != ""
    requires |Segments(prefix)| <= |Segments(p)|
    ensures StartsWith(PushPart(p, name), prefix) ==> StartsWith(p, prefix) || Segments(p) == Segments(prefix)
  {
    var ps := Segments(PushPart(p, name));
    assert ps == Segments(p) + [name];
    assert ps[..|Segments(prefix)|] == Segments(p)[..|Segments(prefix)|];
  }
}
