/**
 * The two POSIX path operations of Node's `path` module that the plugin uses
 * to build a legible identifier from the name of the file being compiled:
 * `basename` and `extname`.
 */
module Paths {

  /** The index of the last occurrence of `c` in `s`, or -1 when there is none. */
  function LastIndexOf(s: string, c: char): (i: int)
    ensures -1 <= i < |s|
    ensures i >= 0 ==> s[i] == c
    ensures forall k :: i < k < |s| ==> s[k] != c
    decreases |s|
  {
    if s == [] then -1
    else if s[|s| - 1] == c then |s| - 1
    else LastIndexOf(s[..|s| - 1], c)
  }

  /** No character of `s` is `c`. */
  predicate Free(s: string, c: char) {
    forall k :: 0 <= k < |s| ==> s[k] != c
  }

  /** The last segment of `p`: everything after its last `/`. */
  function Basename(p: string): (b: string)
    ensures |b| <= |p| && p[|p| - |b|..] == b
    ensures Free(b, '/')
    ensures |b| < |p| ==> p[|p| - |b| - 1] == '/'
  {
    var slash := LastIndexOf(p, '/');
    p[slash + 1..]
  }

  /** Some `.` of `b` comes after its first character. */
  predicate HasInnerDot(b: string) {
    exists k :: 1 <= k < |b| && b[k] == '.'
  }

  /**
   * `e` is the extension of the segment `b`: a suffix of `b` that is empty
   * exactly when `b` has no `.` after its first character or is `..`, and
   * otherwise is a proper suffix starting at the only `.` it holds.
   */
  predicate ExtensionOf(b: string, e: string) {
    |e| <= |b| && b[|b| - |e|..] == e &&
    (e != [] ==> |e| < |b| && e[0] == '.' && forall k :: 1 <= k < |e| ==> e[k] != '.') &&
    (e == [] <==> !HasInnerDot(b) || b == "..")
  }

  /** The extension of a segment: from its last `.` to the end, with Node's exceptions. */
  function SegmentExtension(b: string): (e: string)
    ensures ExtensionOf(b, e)
  {
    var dot := LastIndexOf(b, '.');
    if dot <= 0 || b == ".." then
      assert dot <= 0 ==> !HasInnerDot(b);
      []
    else
      assert HasInnerDot(b);
      b[dot..]
  }

  /** `path.basename(p, ext)` once `ext` is known to end the base name `b`: `b` without `ext`. */
  function WithoutSuffix(b: string, ext: string): (s: string)
    requires |ext| <= |b| && b[|b| - |ext|..] == ext
    ensures s + ext == b
    ensures Free(b, '/') ==> Free(s, '/')
  {
    assert b == b[..|b| - |ext|] + b[|b| - |ext|..];
    b[..|b| - |ext|]
  }

  /**
   * `path.extname(p)`: the extension of the base name. It starts at the only
   * `.` of a proper suffix of the base name, and is empty exactly when the
   * base name has no `.` after its first character or is `..`.
   */
  function Extname(p: string): (e: string)
    ensures ExtensionOf(Basename(p), e)
  {
    SegmentExtension(Basename(p))
  }
}
