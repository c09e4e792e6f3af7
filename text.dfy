/**
 * The part of Go's `strings` package (and of `bytes.TrimSpace`) that the store
 * and the discovery code rely on, over `string == seq<char>`.
 */
module Text {
  import opened Wrappers

  /** strings.HasPrefix */
  predicate HasPrefix(s: string, p: string) {
    |p| <= |s| && s[..|p|] == p
  }

  /** `sub` occurs in `s` starting at index `i`. */
  predicate OccursAt(s: string, sub: string, i: nat) {
    i + |sub| <= |s| && s[i..i + |sub|] == sub
  }

  /** The first occurrence of `sub` in `s` at or after index `i`. */
  function IndexFrom(s: string, sub: string, i: nat): (r: Option<nat>)
    ensures r.Some? ==> i <= r.value && OccursAt(s, sub, r.value)
    ensures r.Some? ==> forall j: nat :: i <= j < r.value ==> !OccursAt(s, sub, j)
    ensures r.None? ==> forall j: nat :: i <= j ==> !OccursAt(s, sub, j)
    decreases |s| - i
  {
    if OccursAt(s, sub, i) then Some(i)
    else if |s| <= i + |sub| then None
    else IndexFrom(s, sub, i + 1)
  }

  /** strings.Index: the first index at which `sub` occurs in `s`. */
  function IndexOf(s: string, sub: string): (r: Option<nat>)
    ensures r.Some? ==> OccursAt(s, sub, r.value)
    ensures r.Some? ==> forall j: nat :: j < r.value ==> !OccursAt(s, sub, j)
    ensures r.None? ==> forall j: nat :: !OccursAt(s, sub, j)
  {
    IndexFrom(s, sub, 0)
  }

  /** strings.Contains */
  predicate Contains(s: string, sub: string) {
    IndexOf(s, sub).Some?
  }

  /** strings.Replace(s, pat, rep, 1): replace the first occurrence of `pat`, if any. */
  function ReplaceFirst(s: string, pat: string, rep: string): string {
    match IndexOf(s, pat)
    case None => s
    case Some(i) => s[..i] + rep + s[i + |pat|..]
  }

  /** ReplaceFirst leaves `s` alone when `pat` does not occur, and otherwise splices
      `rep` in at the first occurrence. */
  lemma ReplaceFirstIsFirst(s: string, pat: string, rep: string)
    ensures (forall j: nat :: !OccursAt(s, pat, j)) ==> ReplaceFirst(s, pat, rep) == s
    ensures forall i: nat ::
      OccursAt(s, pat, i) && (forall j: nat :: j < i ==> !OccursAt(s, pat, j)) ==>
        ReplaceFirst(s, pat, rep) == s[..i] + rep + s[i + |pat|..]
  {
    match IndexOf(s, pat)
    case None =>
    case Some(k) =>
      forall i: nat | OccursAt(s, pat, i) && (forall j: nat :: j < i ==> !OccursAt(s, pat, j))
        ensures i == k
      {
        if i < k {
        } else if k < i {
          assert false;
        }
      }
  }

  /** strings.IndexByte: the first index holding `c`, or -1. */
  function IndexByte(s: string, c: char): (r: int)
    ensures -1 <= r < |s|
    ensures 0 <= r ==> s[r] == c
  {
    if s == [] then -1
    else if s[0] == c then 0
    else
      var r := IndexByte(s[1..], c);
      if r < 0 then -1 else r + 1
  }

  /** IndexByte finds `c` exactly when `c` occurs, and finds its first occurrence. */
  lemma {:induction false} IndexByteIsFirst(s: string, c: char)
    ensures IndexByte(s, c) == -1 <==> c !in s
    ensures 0 <= IndexByte(s, c) ==> forall k :: 0 <= k < IndexByte(s, c) ==> s[k] != c
  {
    if s != [] && s[0] != c {
      IndexByteIsFirst(s[1..], c);
      assert s == [s[0]] + s[1..];
    }
  }

  /** strings.LastIndexByte: the last index holding `c`, or -1. */
  function LastIndexByte(s: string, c: char): (r: int)
    ensures -1 <= r < |s|
    ensures 0 <= r ==> s[r] == c
  {
    if s == [] then -1
    else if s[|s| - 1] == c then |s| - 1
    else LastIndexByte(s[..|s| - 1], c)
  }

  /** LastIndexByte finds `c` exactly when `c` occurs, and finds its last occurrence. */
  lemma {:induction false} LastIndexByteIsLast(s: string, c: char)
    ensures LastIndexByte(s, c) == -1 <==> c !in s
    ensures 0 <= LastIndexByte(s, c) ==> forall k :: LastIndexByte(s, c) < k < |s| ==> s[k] != c
  {
    if s != [] && s[|s| - 1] != c {
      LastIndexByteIsLast(s[..|s| - 1], c);
      assert s == s[..|s| - 1] + [s[|s| - 1]];
    }
  }

  /** The first `c` in `s` is at `i`. */
  lemma IndexByteAt(s: string, c: char, i: nat)
    requires i < |s| && s[i] == c
    requires forall k :: 0 <= k < i ==> s[k] != c
    ensures IndexByte(s, c) == i
  {
    IndexByteIsFirst(s, c);
  }

  /** The last `c` in `s` is at `i`. */
  lemma LastIndexByteAt(s: string, c: char, i: nat)
    requires i < |s| && s[i] == c
    requires forall k :: i < k < |s| ==> s[k] != c
    ensures LastIndexByte(s, c) == i
  {
    LastIndexByteIsLast(s, c);
  }

  /** The number of occurrences of `c` in `s` (strings.Count with a one-character separator). */
  function CountChar(s: string, c: char): (n: nat)
    ensures n <= |s|
    ensures n == 0 <==> c !in s
  {
    if s == [] then 0 else (if s[0] == c then 1 else 0) + CountChar(s[1..], c)
  }

  /** Counting distributes over concatenation. */
  lemma {:induction false} CountAppend(a: string, b: string, c: char)
    ensures CountChar(a + b, c) == CountChar(a, c) + CountChar(b, c)
  {
    if a != [] {
      assert (a + b)[1..] == a[1..] + b;
      CountAppend(a[1..], b, c);
    } else {
      assert a + b == b;
    }
  }

  /** strings.TrimLeftFunc */
  function TrimLeftBy(s: string, cut: char -> bool): string {
    if s != [] && cut(s[0]) then TrimLeftBy(s[1..], cut) else s
  }

  /** strings.TrimRightFunc */
  function TrimRightBy(s: string, cut: char -> bool): string {
    if s != [] && cut(s[|s| - 1]) then TrimRightBy(s[..|s| - 1], cut) else s
  }

  /** strings.TrimFunc: both ends stripped of every character `cut` accepts. */
  function TrimBy(s: string, cut: char -> bool): string {
    TrimRightBy(TrimLeftBy(s, cut), cut)
  }

  /** TrimLeftFunc drops a leading run of cut characters and stops at the first kept one. */
  lemma {:induction false} TrimLeftByShape(s: string, cut: char -> bool)
    ensures var r := TrimLeftBy(s, cut);
      && |r| <= |s| && r == s[|s| - |r|..]
      && (forall k :: 0 <= k < |s| - |r| ==> cut(s[k]))
      && (r == [] || !cut(r[0]))
  {
    if s != [] && cut(s[0]) {
      var t := s[1..];
      TrimLeftByShape(t, cut);
      var r := TrimLeftBy(t, cut);
      assert TrimLeftBy(s, cut) == r;
      assert t[|t| - |r|..] == s[|s| - |r|..];
      forall k | 0 <= k < |s| - |r|
        ensures cut(s[k])
      {
        if k > 0 {
          assert s[k] == t[k - 1];
        }
      }
    }
  }

  /** TrimRightFunc drops a trailing run of cut characters and stops at the last kept one. */
  lemma {:induction false} TrimRightByShape(s: string, cut: char -> bool)
    ensures var r := TrimRightBy(s, cut);
      && |r| <= |s| && r == s[..|r|]
      && (forall k :: |r| <= k < |s| ==> cut(s[k]))
      && (r == [] || !cut(r[|r| - 1]))
  {
    if s != [] && cut(s[|s| - 1]) {
      TrimRightByShape(s[..|s| - 1], cut);
    }
  }

  /** The trimmed string is a piece of the original that neither starts nor ends with a cut character. */
  lemma TrimByEnds(s: string, cut: char -> bool)
    ensures |TrimBy(s, cut)| <= |s|
    ensures TrimBy(s, cut) == [] || (!cut(TrimBy(s, cut)[0]) && !cut(TrimBy(s, cut)[|TrimBy(s, cut)| - 1]))
  {
    var l := TrimLeftBy(s, cut);
    TrimLeftByShape(s, cut);
    TrimRightByShape(l, cut);
    var r := TrimBy(s, cut);
    if r != [] {
      assert r[0] == l[0];
    }
  }

  /** A string that does not start or end with a character `cut` accepts is left as it is. */
  lemma TrimByUntouched(s: string, cut: char -> bool)
    requires s == [] || (!cut(s[0]) && !cut(s[|s| - 1]))
    ensures TrimBy(s, cut) == s
  {
  }

  /** Trimming removes exactly the surrounding run of cut characters. */
  lemma {:induction false} TrimBySurrounded(pre: string, s: string, post: string, cut: char -> bool)
    requires forall k :: 0 <= k < |pre| ==> cut(pre[k])
    requires forall k :: 0 <= k < |post| ==> cut(post[k])
    requires s == [] || (!cut(s[0]) && !cut(s[|s| - 1]))
    requires s != [] || post == []
    ensures TrimBy(pre + s + post, cut) == s
  {
    assert pre + s + post == pre + (s + post);
    assert s + post == [] || !cut((s + post)[0]);
    TrimLeftSurrounded(pre, s + post, cut);
    TrimRightSurrounded(s, post, cut);
  }

  lemma {:induction false} TrimLeftSurrounded(pre: string, s: string, cut: char -> bool)
    requires forall k :: 0 <= k < |pre| ==> cut(pre[k])
    requires s == [] || !cut(s[0])
    ensures TrimLeftBy(pre + s, cut) == s
    decreases |pre|
  {
    if pre != [] {
      assert (pre + s)[1..] == pre[1..] + s;
      TrimLeftSurrounded(pre[1..], s, cut);
    }
  }

  lemma {:induction false} TrimRightSurrounded(s: string, post: string, cut: char -> bool)
    requires forall k :: 0 <= k < |post| ==> cut(post[k])
    requires s == [] || !cut(s[|s| - 1])
    ensures TrimRightBy(s + post, cut) == s
    decreases |post|
  {
    if post != [] {
      var n := |post| - 1;
      assert (s + post)[..|s + post| - 1] == s + post[..n];
      TrimRightSurrounded(s, post[..n], cut);
    }
  }

  /** strings.Trim(s, cutset) with a one-character cutset, e.g. strings.Trim(v, `"`). */
  function Trim(s: string, c: char): string {
    TrimBy(s, x => x == c)
  }

  /** `"v"` with any number of quotes around it trims to `v`. */
  lemma TrimQuoted(v: string, left: nat, right: nat)
    requires v == [] || (v[0] != '"' && v[|v| - 1] != '"')
    requires v != [] || right == 0
    ensures Trim(Repeat('"', left) + v + Repeat('"', right), '"') == v
  {
    TrimBySurrounded(Repeat('"', left), v, Repeat('"', right), x => x == '"');
  }

  function Repeat(c: char, n: nat): (r: string)
    ensures |r| == n && forall k :: 0 <= k < n ==> r[k] == c
  {
    if n == 0 then "" else [c] + Repeat(c, n - 1)
  }

  /** The ASCII white space of bytes.TrimSpace: tab to carriage return, and space. */
  predicate AsciiSpace(c: char) {
    var n := c as int;
    (9 <= n <= 13) || n == 32
  }

  /** The two-byte UTF-8 encodings of white space: U+0085 and U+00A0. */
  predicate Wide2(a: char, b: char) {
    a == '\U{C2}' && (b == '\U{85}' || b == '\U{A0}')
  }

  /** The three-byte UTF-8 encodings of white space: U+1680, U+2000 to U+200A, U+2028, U+2029,
      U+202F, U+205F and U+3000. */
  predicate Wide3(a: char, b: char, c: char) {
    || (a == '\U{E1}' && b == '\U{9A}' && c == '\U{80}')
    || (a == '\U{E2}' && b == '\U{80}'
        && (('\U{80}' <= c <= '\U{8A}') || c == '\U{A8}' || c == '\U{A9}' || c == '\U{AF}'))
    || (a == '\U{E2}' && b == '\U{81}' && c == '\U{9F}')
    || (a == '\U{E3}' && b == '\U{80}' && c == '\U{80}')
  }

  /**
   * The bytes of one rune unicode.IsSpace accepts. A lone byte 0x85 or 0xA0 is not one:
   * it decodes as utf8.RuneError.
   */
  predicate SpaceRune(e: string) {
    || (|e| == 1 && AsciiSpace(e[0]))
    || (|e| == 2 && Wide2(e[0], e[1]))
    || (|e| == 3 && Wide3(e[0], e[1], e[2]))
  }

  /** The length of the white-space rune that `s` starts with; 0 when it starts with none. */
  function LeadingSpace(s: string): (n: nat)
    ensures n <= |s|
  {
    if |s| >= 1 && AsciiSpace(s[0]) then 1
    else if |s| >= 2 && Wide2(s[0], s[1]) then 2
    else if |s| >= 3 && Wide3(s[0], s[1], s[2]) then 3
    else 0
  }

  /** The length of the white-space rune that `s` ends with, as utf8.DecodeLastRune reads it;
      0 when it ends with none. */
  function TrailingSpace(s: string): (n: nat)
    ensures n <= |s|
  {
    var k := |s|;
    if k >= 1 && AsciiSpace(s[k - 1]) then 1
    else if k >= 2 && Wide2(s[k - 2], s[k - 1]) then 2
    else if k >= 3 && Wide3(s[k - 3], s[k - 2], s[k - 1]) then 3
    else 0
  }

  /** bytes.TrimLeftFunc(s, unicode.IsSpace): decode and drop leading white-space runes. */
  function TrimLeftSpace(s: string): string
    decreases |s|
  {
    var n := LeadingSpace(s);
    if n == 0 then s else TrimLeftSpace(s[n..])
  }

  /** bytes.TrimRightFunc(s, unicode.IsSpace): decode and drop trailing white-space runes. */
  function TrimRightSpace(s: string): string
    decreases |s|
  {
    var n := TrailingSpace(s);
    if n == 0 then s else TrimRightSpace(s[..|s| - n])
  }

  /** bytes.TrimSpace: both ends stripped of white-space runes. */
  function TrimSpace(s: string): string {
    TrimRightSpace(TrimLeftSpace(s))
  }

  /** Nothing but white-space runes (or nothing at all), read from the end. */
  predicate AllSpace(s: string)
    decreases |s|
  {
    s == [] || (TrailingSpace(s) > 0 && AllSpace(s[..|s| - TrailingSpace(s)]))
  }

  /** A white-space rune alone is read as one rune from either end. */
  lemma RuneAlone(e: string)
    requires SpaceRune(e)
    ensures LeadingSpace(e) == |e| && TrailingSpace(e) == |e|
  {
  }

  /** What `s` starts with, when it starts with white space, is one white-space rune. */
  lemma LeadingRune(s: string)
    requires LeadingSpace(s) > 0
    ensures SpaceRune(s[..LeadingSpace(s)])
  {
  }

  /** What `s` ends with, when it ends with white space, is one white-space rune. */
  lemma TrailingRune(s: string)
    requires TrailingSpace(s) > 0
    ensures SpaceRune(s[|s| - TrailingSpace(s)..])
  {
    var n := TrailingSpace(s);
    var e := s[|s| - n..];
    assert e[n - 1] == s[|s| - 1];
    assert n >= 2 ==> e[n - 2] == s[|s| - 2];
    assert n >= 3 ==> e[n - 3] == s[|s| - 3];
  }

  /** The leading rune of `s` stays the leading rune with anything after it. */
  lemma LeadingOfLonger(s: string, q: string)
    requires LeadingSpace(s) > 0
    ensures LeadingSpace(s + q) == LeadingSpace(s)
  {
  }

  /** The trailing rune of `r` stays the trailing rune with anything in front of it. */
  lemma TrailingOfLonger(p: string, r: string)
    requires TrailingSpace(r) > 0
    ensures TrailingSpace(p + r) == TrailingSpace(r)
    ensures (p + r)[..|p + r| - TrailingSpace(r)] == p + r[..|r| - TrailingSpace(r)]
  {
    var t, k := p + r, |p + r|;
    assert t[k - 1] == r[|r| - 1];
    assert |r| >= 2 ==> t[k - 2] == r[|r| - 2];
    assert |r| >= 3 ==> t[k - 3] == r[|r| - 3];
  }

  /** Reading all of `s` as white space from the end is the same as trimming it away from the start. */
  lemma AllSpaceFromStart(s: string)
    ensures AllSpace(s) <==> TrimLeftSpace(s) == []
  {
    if AllSpace(s) {
      AllSpaceTrimsLeft(s);
    }
    if TrimLeftSpace(s) == [] {
      LeftTrimmedIsAllSpace(s);
    }
  }

  lemma {:induction false} AllSpaceTrimsLeft(s: string)
    requires AllSpace(s)
    ensures TrimLeftSpace(s) == []
    decreases |s|
  {
    if s != [] {
      var n := TrailingSpace(s);
      var u, e := s[..|s| - n], s[|s| - n..];
      AllSpaceTrimsLeft(u);
      TrailingRune(s);
      assert s == u + e;
      LeftTrimAppend(u, e);
    }
  }

  /** Appending a white-space rune to a string that trims away keeps it trimming away. */
  lemma {:induction false} LeftTrimAppend(u: string, e: string)
    requires TrimLeftSpace(u) == [] && SpaceRune(e)
    ensures TrimLeftSpace(u + e) == []
    decreases |u|
  {
    if u == [] {
      RuneAlone(e);
      assert u + e == e && e[|e|..] == [];
    } else {
      var m := LeadingSpace(u);
      LeadingOfLonger(u, e);
      assert (u + e)[m..] == u[m..] + e;
      LeftTrimAppend(u[m..], e);
    }
  }

  lemma {:induction false} LeftTrimmedIsAllSpace(s: string)
    requires TrimLeftSpace(s) == []
    ensures AllSpace(s)
    decreases |s|
  {
    if s != [] {
      var m := LeadingSpace(s);
      var e, r := s[..m], s[m..];
      LeadingRune(s);
      LeftTrimmedIsAllSpace(r);
      assert s == e + r;
      PrependRune(e, r);
    }
  }

  /** Putting a white-space rune in front of white space gives white space. */
  lemma {:induction false} PrependRune(e: string, r: string)
    requires SpaceRune(e) && AllSpace(r)
    ensures AllSpace(e + r)
    decreases |r|
  {
    if r == [] {
      RuneAlone(e);
      assert e + r == e && e[..0] == [];
    } else {
      PrependRune(e, r[..|r| - TrailingSpace(r)]);
      TrailingOfLonger(e, r);
    }
  }

  /** A string that trims away from the end is empty or starts with a white-space rune. */
  lemma {:induction false} RightTrimmedStartsWithSpace(s: string)
    requires s != [] && TrimRightSpace(s) == []
    ensures LeadingSpace(s) > 0
    decreases |s|
  {
    var n := TrailingSpace(s);
    var u, e := s[..|s| - n], s[|s| - n..];
    TrailingRune(s);
    assert s == u + e;
    if u == [] {
      RuneAlone(e);
    } else {
      RightTrimmedStartsWithSpace(u);
      LeadingOfLonger(u, e);
    }
  }

  /** bytes.TrimSpace leaves nothing exactly when there is nothing but white-space runes. */
  lemma TrimSpaceBlank(s: string)
    ensures TrimSpace(s) == [] <==> AllSpace(s)
  {
    AllSpaceFromStart(s);
    var l := TrimLeftSpace(s);
    TrimLeftSpaceStops(s);
    if l != [] && TrimRightSpace(l) == [] {
      RightTrimmedStartsWithSpace(l);
    }
  }

  /** Trimming from the start stops at a string that starts with no white-space rune. */
  lemma {:induction false} TrimLeftSpaceStops(s: string)
    ensures LeadingSpace(TrimLeftSpace(s)) == 0
    decreases |s|
  {
    if LeadingSpace(s) > 0 {
      TrimLeftSpaceStops(s[LeadingSpace(s)..]);
    }
  }

  /** Trimming from the end keeps a prefix that ends in no white-space rune, and starts with
      none when the input does not. */
  lemma {:induction false} TrimRightSpaceStops(s: string)
    ensures var r := TrimRightSpace(s); |r| <= |s| && r == s[..|r|] && TrailingSpace(r) == 0
    ensures LeadingSpace(s) == 0 ==> LeadingSpace(TrimRightSpace(s)) == 0
    decreases |s|
  {
    var n := TrailingSpace(s);
    if n > 0 {
      var u := s[..|s| - n];
      TrimRightSpaceStops(u);
      var r := TrimRightSpace(u);
      assert r == s[..|r|];
      if LeadingSpace(r) > 0 {
        LeadingOfLonger(r, s[|r|..]);
        assert r + s[|r|..] == s;
      }
    }
  }

  /** Trimming from the start keeps a suffix of the input. */
  lemma {:induction false} TrimLeftSpaceSuffix(s: string)
    ensures var l := TrimLeftSpace(s); |l| <= |s| && l == s[|s| - |l|..]
    decreases |s|
  {
    var n := LeadingSpace(s);
    if n > 0 {
      TrimLeftSpaceSuffix(s[n..]);
    }
  }

  /** bytes.TrimSpace keeps one contiguous piece of its input (a prefix of a suffix), which
      neither starts nor ends with a white-space rune. */
  lemma TrimSpaceEnds(s: string)
    ensures var l, r := TrimLeftSpace(s), TrimSpace(s);
      |r| <= |l| <= |s| && l == s[|s| - |l|..] && r == l[..|r|]
    ensures LeadingSpace(TrimSpace(s)) == 0 && TrailingSpace(TrimSpace(s)) == 0
  {
    var l := TrimLeftSpace(s);
    TrimLeftSpaceSuffix(s);
    TrimLeftSpaceStops(s);
    TrimRightSpaceStops(l);
  }

  /** A lone byte 0xA0, which is not valid UTF-8, is kept by bytes.TrimSpace. */
  lemma LoneNoBreakSpaceKept()
    ensures TrimSpace("8.1" + ['\U{A0}']) == "8.1" + ['\U{A0}']
  {
    var s := "8.1" + ['\U{A0}'];
    assert LeadingSpace(s) == 0;
    assert s[|s| - 2..] == ['1', '\U{A0}'] && s[|s| - 3..] == ['.', '1', '\U{A0}'];
    assert TrailingSpace(s) == 0;
  }

  /** The UTF-8 encoding of U+00A0 is trimmed whole. */
  lemma EncodedNoBreakSpaceTrimmed()
    ensures TrimSpace("8.1" + ['\U{C2}', '\U{A0}']) == "8.1"
  {
    var s := "8.1" + ['\U{C2}', '\U{A0}'];
    assert LeadingSpace(s) == 0;
    assert s[|s| - 2..] == ['\U{C2}', '\U{A0}'];
    assert TrailingSpace(s) == 2;
    var t := s[..|s| - 2];
    assert t == "8.1";
    assert t[|t| - 2..] == ".1" && t[|t| - 3..] == "8.1";
    assert TrailingSpace(t) == 0;
    assert TrimLeftSpace(s) == s;
    assert TrimRightSpace(s) == TrimRightSpace(t) == t;
  }

  /** strings.Join with a one-character separator. */
  function JoinWith(parts: seq<string>, sep: char): string {
    if |parts| == 0 then ""
    else if |parts| == 1 then parts[0]
    else parts[0] + [sep] + JoinWith(parts[1..], sep)
  }

  /** strings.Split with a one-character separator: the pieces between separators. */
  function Split(s: string, sep: char): (parts: seq<string>)
    ensures |parts| >= 1
    decreases |s|
  {
    var i := IndexByte(s, sep);
    if i < 0 then [s] else [s[..i]] + Split(s[i + 1..], sep)
  }

  /** The pieces Split returns hold no separator, and joining them gives back the input. */
  lemma {:induction false} SplitPieces(s: string, sep: char)
    ensures forall k :: 0 <= k < |Split(s, sep)| ==> sep !in Split(s, sep)[k]
    ensures JoinWith(Split(s, sep), sep) == s
    decreases |s|
  {
    var i := IndexByte(s, sep);
    IndexByteIsFirst(s, sep);
    if i >= 0 {
      assert s == s[..i] + [sep] + s[i + 1..];
      var head, rest := s[..i], Split(s[i + 1..], sep);
      SplitPieces(s[i + 1..], sep);
      var parts := [head] + rest;
      assert Split(s, sep) == parts;
      assert parts[1..] == rest;
      assert sep !in head;
      assert forall k :: 1 <= k < |parts| ==> parts[k] == rest[k - 1];
      assert JoinWith(parts, sep) == head + [sep] + JoinWith(rest, sep);
    }
  }

  /** Split undoes JoinWith when no part contains the separator. */
  lemma {:induction false} SplitJoin(parts: seq<string>, sep: char)
    requires |parts| >= 1
    requires forall k :: 0 <= k < |parts| ==> sep !in parts[k]
    ensures Split(JoinWith(parts, sep), sep) == parts
  {
    if |parts| > 1 {
      var s := JoinWith(parts, sep);
      assert s == parts[0] + [sep] + JoinWith(parts[1..], sep);
      IndexByteAfter(parts[0], JoinWith(parts[1..], sep), sep);
      assert s[..|parts[0]|] == parts[0];
      assert s[|parts[0]| + 1..] == JoinWith(parts[1..], sep);
      SplitJoin(parts[1..], sep);
      assert parts == [parts[0]] + parts[1..];
    }
  }

  /** Split takes off the piece before the first separator. */
  lemma SplitAfter(a: string, b: string, c: char)
    requires c !in a
    ensures Split(a + [c] + b, c) == [a] + Split(b, c)
  {
    var s := a + [c] + b;
    IndexByteAfter(a, b, c);
    assert s[..|a|] == a;
    assert s[|a| + 1..] == b;
  }

  lemma IndexByteAfter(a: string, b: string, c: char)
    requires c !in a
    ensures IndexByte(a + [c] + b, c) == |a|
  {
    var s := a + [c] + b;
    assert forall k :: 0 <= k < |a| ==> s[k] == a[k];
    IndexByteAt(s, c, |a|);
  }

  predicate IsDigit(c: char) {
    '0' <= c <= '9'
  }

  predicate AllDigits(s: string) {
    forall k :: 0 <= k < |s| ==> IsDigit(s[k])
  }

  function DigitChar(d: nat): (c: char)
    requires d < 10
    ensures IsDigit(c)
  {
    ('0' as int + d) as char
  }

  /** The number a string of decimal digits denotes (leading zeros allowed). */
  function DecimalValue(s: string): nat
    requires AllDigits(s)
  {
    if s == [] then 0
    else 10 * DecimalValue(s[..|s| - 1]) + (s[|s| - 1] as int - '0' as int)
  }

  /** strconv.Itoa for naturals: the decimal form, without leading zeros. */
  function NatToString(n: nat): (r: string)
    ensures AllDigits(r) && |r| >= 1
    ensures DecimalValue(r) == n
    ensures r[0] != '0' || n == 0
    ensures n < 10 <==> |r| == 1
    ensures n < 100 <==> |r| <= 2
  {
    if n < 10 then [DigitChar(n)]
    else
      var r := NatToString(n / 10) + [DigitChar(n % 10)];
      assert r[..|r| - 1] == NatToString(n / 10);
      r
  }

  /** Leading zeros do not change the value of a digit string. */
  lemma {:induction false} LeadingZero(s: string)
    requires AllDigits(s)
    ensures AllDigits("0" + s) && DecimalValue("0" + s) == DecimalValue(s)
  {
    if s != [] {
      var t := "0" + s;
      assert t[..|t| - 1] == "0" + s[..|s| - 1];
      LeadingZero(s[..|s| - 1]);
    }
  }
}
