/**
 * The part of Go's `path/filepath` used by the store and the discovery code, on
 * '/'-separated paths that are already in the form filepath.Clean produces.
 */
module Paths {
  import opened Text

  /** A clean directory path: non-empty, and no trailing separator unless it is the root. */
  predicate IsCleanDir(d: string) {
    d != "" && (d == "/" || d[|d| - 1] != '/')
  }

  /** filepath.Join(dir, name) */
  function Join(dir: string, name: string): string {
    if |dir| == 0 || (|dir| == 1 && dir[0] == '.') then name
    else if |name| == 0 then dir
    else if dir[|dir| - 1] == '/' then dir + name
    else dir + ['/'] + name
  }

  /** filepath.Dir: everything before the last separator; "." when there is none. */
  function Dir(p: string): (r: string)
    ensures r == "." || r == "/" || (|r| < |p| && HasPrefix(p, r))
    ensures r != "." && r != p ==> |r| < |p|
  {
    var i := LastIndexByte(p, '/');
    if i < 0 then "."
    else if i == 0 then
      assert |p| == 1 ==> p == "/";
      "/"
    else p[..i]
  }

  /** filepath.Base: the last element. */
  function Base(p: string): string {
    if p == "" then "."
    else if p == "/" then "/"
    else p[LastIndexByte(p, '/') + 1..]
  }

  /** filepath.SplitList: the entries of a PATH-style list. */
  function SplitList(list: string, isWindows: bool): (dirs: seq<string>)
    ensures list == "" ==> dirs == []
    ensures list != "" ==> JoinWith(dirs, if isWindows then ';' else ':') == list
  {
    if list == "" then []
    else
      SplitPieces(list, if isWindows then ';' else ':');
      Split(list, if isWindows then ';' else ':')
  }

  /** Dir and Base take apart what Join put together. */
  lemma DirBaseOfJoin(dir: string, name: string)
    requires IsCleanDir(dir) && dir != "."
    requires name != "" && '/' !in name
    ensures Dir(Join(dir, name)) == dir
    ensures Base(Join(dir, name)) == name
  {
    var p := Join(dir, name);
    if dir == "/" {
      assert p == "/" + name;
      assert forall k :: 0 < k < |p| ==> p[k] == name[k - 1];
      LastIndexByteAt(p, '/', 0);
    } else {
      assert p == dir + "/" + name;
      assert p[|dir| + 1..] == name;
      assert forall k :: |dir| < k < |p| ==> p[k] == name[k - |dir| - 1];
      LastIndexByteAt(p, '/', |dir|);
      assert p[..|dir|] == dir;
    }
  }
}
