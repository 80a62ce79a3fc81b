/** `pathlib` as far as the tool uses it, over paths given as segment sequences. */
module Paths {
  import opened Wrappers
  import opened Text
  import Sorting

  /** A path as its sequence of segments. Paths handed to the planners are
      relative to the scan root; the root itself is the empty path. */
  type Path = seq<string>

  /** `Path.name`: the last segment, or "" for the root. */
  function Name(p: Path): string { if |p| == 0 then "" else p[|p| - 1] }

  /** `Path.parent`: the root is its own parent. */
  function Parent(p: Path): (q: Path)
    ensures |p| > 0 ==> |q| == |p| - 1 && p == q + [Name(p)]
  {
    if |p| == 0 then [] else p[..|p| - 1]
  }

  /** `str.rfind('.')`: the index of the last dot, or -1. */
  function LastDot(s: string): (i: int)
    ensures -1 <= i < |s|
    ensures i >= 0 ==> s[i] == '.'
    ensures forall j | i < j < |s| :: s[j] != '.'
  {
    if |s| == 0 then -1
    else if s[|s| - 1] == '.' then |s| - 1
    else LastDot(s[..|s| - 1])
  }

  /** Whether the name has an extension in `pathlib`'s sense: a last dot that
      is neither the first nor the last character. */
  predicate HasSuffix(name: string) {
    var i := LastDot(name);
    0 < i < |name| - 1
  }

  /** `PurePath.suffix`: there is one exactly when the last dot of the name
      is neither its first nor its last character, and it runs from that dot. */
  function Suffix(name: string): (r: string)
    ensures r == "" || (r[0] == '.' && |r| >= 2 && forall j | 0 < j < |r| :: r[j] != '.')
    ensures r != "" <==>
      exists i | 0 < i < |name| - 1 :: name[i] == '.' && forall j | i < j < |name| :: name[j] != '.'
  {
    if HasSuffix(name) then name[LastDot(name)..] else ""
  }

  /** `PurePath.stem`. */
  function Stem(name: string): (r: string)
    ensures r + Suffix(name) == name
  {
    if HasSuffix(name) then name[..LastDot(name)] else name
  }

  /** `str(path)` for a relative path: segments joined by '/'; the empty path
      prints as ".". */
  function PathText(p: Path): string {
    if |p| == 0 then "." else JoinSlash(p)
  }

  function JoinSlash(p: Path): string
    requires |p| > 0
  {
    if |p| == 1 then p[0] else JoinSlash(p[..|p| - 1]) + "/" + p[|p| - 1]
  }

  /** A name `with_name` accepts on POSIX: one non-empty segment other than ".". */
  predicate ValidName(n: string) { |n| > 0 && '/' !in n && n != "." }

  /** `Path.with_name`: the same parent, a new last segment. */
  function WithName(p: Path, n: string): (q: Path)
    requires |p| > 0
    ensures |q| == |p| && Parent(q) == Parent(p) && Name(q) == n
  {
    p[..|p| - 1] + [n]
  }

  /** `Path.with_name`, which raises `ValueError` (here a `Failure` carrying
      the rejected name) when the path itself has an empty name or the new
      name is not a valid single segment. */
  function WithNameChecked(p: Path, n: string): (r: Result<Path, string>)
    ensures r.Success? <==> Name(p) != "" && ValidName(n)
    ensures r.Success? ==> |r.value| == |p| && Parent(r.value) == Parent(p) && Name(r.value) == n
  {
    if Name(p) == "" || !ValidName(n) then Failure(n) else Success(WithName(p, n))
  }

  /** A character missing from a name is missing from its stem and suffix. */
  lemma StemSuffixChars(name: string, c: char)
    requires c !in name
    ensures c !in Stem(name) && c !in Suffix(name)
  {
    var i := LastDot(name);
    if HasSuffix(name) {
      NotInSlice(name, c, 0, i);
      NotInSlice(name, c, i, |name|);
      assert name[..i] == name[0..i];
      assert name[i..] == name[i..|name|];
    }
  }

  /** What `is_file()` / `is_dir()` report for an entry found by `rglob`. */
  datatype EntryKind = RegularFile | Directory | OtherKind

  /** One path yielded by `root.rglob("*")`, relative to the root. */
  datatype Entry = Entry(path: Path, kind: EntryKind)

  /** No two scanned entries share a path, as `rglob` guarantees. */
  predicate DistinctPaths(es: seq<Entry>) {
    forall i, j | 0 <= i < j < |es| :: es[i].path != es[j].path
  }

  /** Python's string order is the strict total order the sorts need. */
  lemma StrLessIsStrictTotalOrder()
    ensures Sorting.StrictTotalOrder(StrLess)
  {
    forall a ensures !StrLess(a, a) { StrLessIrreflexive(a); }
    forall a, b, c | StrLess(a, b) && StrLess(b, c) ensures StrLess(a, c) {
      StrLessTransitive(a, b, c);
    }
    forall a, b | a != b ensures StrLess(a, b) || StrLess(b, a) { StrLessTotal(a, b); }
  }
}
