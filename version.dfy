/**
 * One installed PHP runtime (version.go): the record, how its serving type is
 * derived from the optional tool paths, the version ordering used for sorting,
 * and the probing of optional tool paths.
 */
module PhpVersion {
  import opened Wrappers
  import opened Text
  import opened Machine

  /** The parsed version (go-version's segments), restricted to major.minor.patch. */
  datatype Triple = Triple(major: nat, minor: nat, patch: nat)

  /** go-version's LessThan on three segments: lexicographic. */
  predicate LessThan(a: Triple, b: Triple) {
    a.major < b.major
    || (a.major == b.major && a.minor < b.minor)
    || (a.major == b.major && a.minor == b.minor && a.patch < b.patch)
  }

  /** go-version's String(): each segment in decimal, joined by dots. */
  function VersionString(t: Triple): string {
    NatToString(t.major) + "." + NatToString(t.minor) + "." + NatToString(t.patch)
  }

  /** go-version reads each segment with strconv.ParseInt(_, 10, 64): it must stay below 2^63. */
  const SegmentBound: nat := 0x8000_0000_0000_0000

  /** Every segment of a triple fits go-version's int64 segments. */
  predicate FitsSegments(t: Triple) {
    t.major < SegmentBound && t.minor < SegmentBound && t.patch < SegmentBound
  }

  /**
   * go-version's NewVersion on plain dotted numbers: an optional 'v', then one to
   * three numeric segments, each below 2^63; missing segments are zero.
   */
  function ParseVersion(s: string): Option<Triple> {
    var body := if s != "" && s[0] == 'v' then s[1..] else s;
    match Scan(body, 0, [], None)
    case Some(ns) =>
      if |ns| > 3 then None
      else
        var t := Triple(ns[0], if |ns| > 1 then ns[1] else 0, if |ns| > 2 then ns[2] else 0);
        if FitsSegments(t) then Some(t) else None
    case None => None
  }

  /** Reads dot-separated decimal numbers from `s[i..]`; `done` holds the numbers read so far and
      `cur` the value of the digits of the current number (None before its first digit). */
  function Scan(s: string, i: nat, done: seq<nat>, cur: Option<nat>): (r: Option<seq<nat>>)
    requires i <= |s|
    ensures r.Some? ==> |r.value| >= 1
    decreases |s| - i
  {
    if i == |s| then (if cur.None? then None else Some(done + [cur.value]))
    else if s[i] == '.' then (if cur.None? then None else Scan(s, i + 1, done + [cur.value], None))
    else if IsDigit(s[i]) then Scan(s, i + 1, done, Some(10 * cur.GetOr(0) + (s[i] as int - '0' as int)))
    else None
  }

  /** Scanning a run of digits that starts a segment leaves its decimal value as the current number. */
  lemma {:induction false} ScanDigits(s: string, i: nat, j: nat, done: seq<nat>)
    requires i < j <= |s|
    requires forall k :: i <= k < j ==> IsDigit(s[k])
    ensures AllDigits(s[i..j])
    ensures Scan(s, i, done, None) == Scan(s, j, done, Some(DecimalValue(s[i..j])))
    decreases j - i
  {
    assert forall k :: 0 <= k < j - i ==> s[i..j][k] == s[i + k];
    if j == i + 1 {
      assert s[i..j][..0] == [];
    } else {
      ScanDigits(s, i, j - 1, done);
      assert s[i..j][..j - 1 - i] == s[i..j - 1];
    }
  }

  /** Scanning depends only on what is left to scan: `p + t` from `|p| + i` scans as `t` from `i`. */
  lemma {:induction false} ScanShift(p: string, t: string, i: nat, done: seq<nat>, cur: Option<nat>)
    requires i <= |t|
    ensures Scan(p + t, |p| + i, done, cur) == Scan(t, i, done, cur)
    decreases |t| - i
  {
    if i < |t| {
      var c := t[i];
      assert (p + t)[|p| + i] == c;
      if c == '.' {
        if cur.Some? {
          ScanShift(p, t, i + 1, done + [cur.value], None);
        }
      } else if IsDigit(c) {
        ScanShift(p, t, i + 1, done, Some(10 * cur.GetOr(0) + (c as int - '0' as int)));
      }
    }
  }

  /** Scanning a digit string `x`, then `t`, reads `x` as the current number and goes on with `t`. */
  lemma ScanRun(x: string, t: string, done: seq<nat>)
    requires x != "" && AllDigits(x)
    ensures Scan(x + t, 0, done, None) == Scan(t, 0, done, Some(DecimalValue(x)))
  {
    var s := x + t;
    assert forall k :: 0 <= k < |x| ==> s[k] == x[k];
    ScanDigits(s, 0, |x|, done);
    assert s[0..|x|] == x;
    ScanShift(x, t, 0, done, Some(DecimalValue(x)));
  }

  /** Scanning a digit string `x`, a dot, then `t` finishes the segment `x` and goes on with `t`. */
  lemma ScanDotRun(x: string, t: string, done: seq<nat>)
    requires x != "" && AllDigits(x)
    ensures Scan(x + "." + t, 0, done, None) == Scan(t, 0, done + [DecimalValue(x)], None)
  {
    var n := DecimalValue(x);
    assert x + "." + t == x + ("." + t);
    ScanRun(x, "." + t, done);
    ScanDot("." + t, 0, done, n);
    ScanShift(".", t, 0, done + [n], None);
  }

  /** Scanning a digit string `x` to the end finishes the last segment. */
  lemma ScanLastRun(x: string, done: seq<nat>)
    requires x != "" && AllDigits(x)
    ensures Scan(x, 0, done, None) == Some(done + [DecimalValue(x)])
  {
    assert x + [] == x;
    ScanRun(x, [], done);
  }

  /** Scanning "a.b.c" for digit strings a, b and c. */
  lemma ScanThree(a: string, b: string, c: string)
    requires a != "" && b != "" && c != ""
    requires AllDigits(a) && AllDigits(b) && AllDigits(c)
    ensures Scan(a + "." + b + "." + c, 0, [], None) == Some([DecimalValue(a), DecimalValue(b), DecimalValue(c)])
  {
    Regroup(a + ".", b, ".", c);
    ScanThreeParts(a, b, c, [], [DecimalValue(a), DecimalValue(b), DecimalValue(c)]);
  }

  /** Regrouping a concatenation of four strings. */
  lemma Regroup(w: string, x: string, y: string, z: string)
    ensures w + x + y + z == w + (x + y + z)
  {
  }

  /** Scanning "a.b.c", grouped from the right, after the segments `done`. */
  lemma ScanThreeParts(a: string, b: string, c: string, done: seq<nat>, r: seq<nat>)
    requires a != "" && b != "" && c != ""
    requires AllDigits(a) && AllDigits(b) && AllDigits(c)
    requires r == done + [DecimalValue(a), DecimalValue(b), DecimalValue(c)]
    ensures Scan(a + "." + (b + "." + c), 0, done, None) == Some(r)
  {
    ScanDotRun(a, b + "." + c, done);
    ScanDotRun(b, c, done + [DecimalValue(a)]);
    ScanLastRun(c, done + [DecimalValue(a)] + [DecimalValue(b)]);
    assert done + [DecimalValue(a)] + [DecimalValue(b)] + [DecimalValue(c)] == r;
  }

  lemma ScanDot(s: string, i: nat, done: seq<nat>, n: nat)
    requires i < |s| && s[i] == '.'
    ensures Scan(s, i, done, Some(n)) == Scan(s, i + 1, done + [n], None)
  {
  }

  /** What a successful scan has seen: digits and dots only, never two dots in a row,
      no dot at the end, and no dot where a number must start. */
  lemma {:induction false} ScanShape(s: string, i: nat, done: seq<nat>, cur: Option<nat>)
    requires i <= |s| && Scan(s, i, done, cur).Some?
    ensures forall k :: i <= k < |s| ==> IsDigit(s[k]) || s[k] == '.'
    ensures forall k :: i <= k < |s| - 1 && s[k] == '.' ==> s[k + 1] != '.'
    ensures i < |s| ==> s[|s| - 1] != '.'
    ensures cur.None? ==> i < |s| && s[i] != '.'
    decreases |s| - i
  {
    if i < |s| {
      if s[i] == '.' {
        ScanShape(s, i + 1, done + [cur.value], None);
      } else {
        ScanShape(s, i + 1, done, Some(10 * cur.GetOr(0) + (s[i] as int - '0' as int)));
      }
    }
  }

  /** A "v" directly followed by a dot leaves nothing to parse: the version fails. */
  lemma NoPrefixBeforeDot(s: string)
    requires |s| >= 2 && s[1] == '.'
    ensures ParseVersion(s).Some? ==> s[0] != 'v'
  {
    if s[0] == 'v' {
      assert s[1..][0] == '.';
    }
  }

  /** A version written by String() parses back to the same segments exactly when every
      segment fits in an int64; a larger segment makes the parse fail. */
  lemma ParseVersionString(t: Triple)
    ensures ParseVersion(VersionString(t)) == if FitsSegments(t) then Some(t) else None
  {
    var a, b, c := NatToString(t.major), NatToString(t.minor), NatToString(t.patch);
    var s := VersionString(t);
    assert s == a + "." + b + "." + c;
    ScanThree(a, b, c);
    assert s[0] == a[0];
  }

  /** The record the Go code keeps for every discovered PHP installation. */
  datatype Version = Version(
    full: Triple,           // FullVersion
    version: string,        // Version, as go-version prints it
    path: string,           // Path: the installation directory
    phpPath: string,        // PHPPath: the CLI binary
    fpmPath: string,
    cgiPath: string,
    phpConfigPath: string,
    phpizePath: string,
    phpdbgPath: string,
    isSystem: bool,         // first PHP found on the PATH
    frankenPHP: bool)

  /** A fresh record as the discovery code builds it: no tool path yet. */
  function NewRecord(full: Triple, dir: string, phpPath: string): (v: Version)
    ensures v.version == VersionString(full) && v.path == dir && v.phpPath == phpPath
    ensures v.fpmPath == v.cgiPath == v.phpConfigPath == v.phpizePath == v.phpdbgPath == ""
    ensures !v.isSystem && !v.frankenPHP
  {
    Version(full, VersionString(full), dir, phpPath, "", "", "", "", "", false, false)
  }

  datatype ServerType = FPMServer | CGIServer | CLIServer | FrankenPHPServer

  /** serverType: FrankenPHP, then FPM, then CGI, then CLI. */
  function ServerTypeOf(v: Version): ServerType {
    if v.frankenPHP then FrankenPHPServer
    else if v.fpmPath != "" then FPMServer
    else if v.cgiPath != "" then CGIServer
    else CLIServer
  }

  /** ServerPath: the binary that serves requests for this record. */
  function ServerPath(v: Version): (r: string)
    ensures r == "" <==> v.frankenPHP || (v.fpmPath == "" && v.cgiPath == "" && v.phpPath == "")
  {
    match ServerTypeOf(v)
    case FPMServer => v.fpmPath
    case CGIServer => v.cgiPath
    case FrankenPHPServer => ""
    case CLIServer => v.phpPath
  }

  function TypeName(t: ServerType): string {
    match t
    case FPMServer => "PHP FPM"
    case CGIServer => "PHP CGI"
    case FrankenPHPServer => "FrankenPHP"
    case CLIServer => "PHP CLI"
  }

  /** ServerTypeName */
  function ServerTypeName(v: Version): string {
    TypeName(ServerTypeOf(v))
  }

  predicate IsFPMServer(v: Version) { ServerTypeOf(v) == FPMServer }
  predicate IsCGIServer(v: Version) { ServerTypeOf(v) == CGIServer }
  predicate IsCLIServer(v: Version) { ServerTypeOf(v) == CLIServer }
  predicate IsFrankenPHPServer(v: Version) { ServerTypeOf(v) == FrankenPHPServer }

  /** The precedence of the serving types, seen through the four Is*Server accessors. */
  lemma ServerTypePrecedence(v: Version)
    ensures IsFrankenPHPServer(v) <==> v.frankenPHP
    ensures IsFPMServer(v) <==> !v.frankenPHP && v.fpmPath != ""
    ensures IsCGIServer(v) <==> !v.frankenPHP && v.fpmPath == "" && v.cgiPath != ""
    ensures IsCLIServer(v) <==> !v.frankenPHP && v.fpmPath == "" && v.cgiPath == ""
  {
  }

  /** Exactly one of the four accessors holds for any record. */
  lemma ExactlyOneServerType(v: Version)
    ensures IsFPMServer(v) || IsCGIServer(v) || IsCLIServer(v) || IsFrankenPHPServer(v)
    ensures !(IsFPMServer(v) && IsCGIServer(v)) && !(IsFPMServer(v) && IsCLIServer(v))
    ensures !(IsFPMServer(v) && IsFrankenPHPServer(v)) && !(IsCGIServer(v) && IsCLIServer(v))
    ensures !(IsCGIServer(v) && IsFrankenPHPServer(v)) && !(IsCLIServer(v) && IsFrankenPHPServer(v))
  {
  }

  /** The server path is the tool path that decided the serving type. */
  lemma ServerPathFollowsType(v: Version)
    ensures IsFPMServer(v) ==> ServerPath(v) == v.fpmPath != ""
    ensures IsCGIServer(v) ==> ServerPath(v) == v.cgiPath != ""
    ensures IsCLIServer(v) ==> ServerPath(v) == v.phpPath
    ensures IsFrankenPHPServer(v) ==> ServerPath(v) == ""
  {
  }

  /** ServerTypeName names each serving type with its own name. */
  lemma ServerTypeNameIsInjective(a: Version, b: Version)
    ensures ServerTypeName(a) == ServerTypeName(b) <==> ServerTypeOf(a) == ServerTypeOf(b)
  {
  }

  /** The `versions.Less` order: by parsed version only. */
  predicate Less(vs: seq<Version>, i: nat, j: nat)
    requires i < |vs| && j < |vs|
  {
    LessThan(vs[i].full, vs[j].full)
  }

  /** `a` is not above `b`: the non-strict order that Less induces. */
  predicate AtMost(a: Triple, b: Triple) {
    !LessThan(b, a)
  }

  /** LessThan is a strict total order, so AtMost is a total preorder that is antisymmetric. */
  lemma AtMostIsTotalOrder(a: Triple, b: Triple, c: Triple)
    ensures AtMost(a, a)
    ensures AtMost(a, b) && AtMost(b, c) ==> AtMost(a, c)
    ensures AtMost(a, b) || AtMost(b, a)
    ensures AtMost(a, b) && AtMost(b, a) ==> a == b
  {
    assert AtMost(a, b) && AtMost(b, a) ==> a == b by {
      if AtMost(a, b) && AtMost(b, a) {
        assert a.major == b.major && a.minor == b.minor && a.patch == b.patch;
      }
    }
  }

  /** What sort.Sort guarantees with Less: no later record is less than an earlier one. */
  predicate Sorted(vs: seq<Version>) {
    forall i, j :: 0 <= i < j < |vs| ==> AtMost(vs[i].full, vs[j].full)
  }

  /** Sorted read through versions.Less, as sort.Sort states it. */
  lemma SortedMeansNoInversion(vs: seq<Version>)
    ensures Sorted(vs) <==> forall i, j :: 0 <= i < j < |vs| ==> !Less(vs, j, i)
  {
    assert forall i, j :: 0 <= i < j < |vs| ==> (AtMost(vs[i].full, vs[j].full) <==> !Less(vs, j, i));
  }

  /** The records have pairwise different parsed versions. */
  predicate DistinctVersions(vs: seq<Version>) {
    forall i, j :: 0 <= i < j < |vs| ==> vs[i].full != vs[j].full
  }

  /** Insert `v` before the first record it is not above. */
  function InsertByVersion(v: Version, vs: seq<Version>): (r: seq<Version>)
    ensures multiset(r) == multiset(vs) + multiset{v}
    ensures |r| == |vs| + 1
  {
    if vs == [] then [v]
    else if AtMost(v.full, vs[0].full) then [v] + vs
    else
      assert vs == [vs[0]] + vs[1..];
      [vs[0]] + InsertByVersion(v, vs[1..])
  }

  /** Inserting into a sorted sequence keeps it sorted. */
  lemma {:induction false} InsertKeepsSorted(v: Version, vs: seq<Version>)
    requires Sorted(vs)
    ensures Sorted(InsertByVersion(v, vs))
  {
    if vs == [] {
    } else if AtMost(v.full, vs[0].full) {
      BelowSortedHead(v, vs);
      ConsSorted(v, vs);
    } else {
      TailSorted(vs);
      InsertKeepsSorted(v, vs[1..]);
      var tail := InsertByVersion(v, vs[1..]);
      HeadBelowInsert(v, vs, tail);
      ConsSorted(vs[0], tail);
    }
  }

  /** A record below the head of a sorted sequence is below all of it. */
  lemma BelowSortedHead(v: Version, vs: seq<Version>)
    requires Sorted(vs) && vs != [] && AtMost(v.full, vs[0].full)
    ensures forall k :: 0 <= k < |vs| ==> AtMost(v.full, vs[k].full)
  {
    forall k | 0 <= k < |vs| ensures AtMost(v.full, vs[k].full) {
      AtMostIsTotalOrder(v.full, vs[0].full, vs[k].full);
    }
  }

  /** The head of `vs` is below every element of vs[1..] with `v` added, when `v` is above it. */
  lemma HeadBelowInsert(v: Version, vs: seq<Version>, tail: seq<Version>)
    requires Sorted(vs) && vs != [] && !AtMost(v.full, vs[0].full)
    requires multiset(tail) == multiset(vs[1..]) + multiset{v}
    ensures forall k :: 0 <= k < |tail| ==> AtMost(vs[0].full, tail[k].full)
  {
    forall k | 0 <= k < |tail| ensures AtMost(vs[0].full, tail[k].full) {
      assert tail[k] in multiset(tail);
      if tail[k] != v {
        assert tail[k] in multiset(vs[1..]);
        var j :| 0 <= j < |vs[1..]| && vs[1..][j] == tail[k];
        assert vs[j + 1] == tail[k];
      } else {
        AtMostIsTotalOrder(vs[0].full, v.full, v.full);
      }
    }
  }

  /** Putting a record below all of a sorted sequence in front keeps it sorted. */
  lemma ConsSorted(x: Version, vs: seq<Version>)
    requires Sorted(vs)
    requires forall k :: 0 <= k < |vs| ==> AtMost(x.full, vs[k].full)
    ensures Sorted([x] + vs)
  {
    var r := [x] + vs;
    forall i, j | 0 <= i < j < |r| ensures AtMost(r[i].full, r[j].full) {
      if i == 0 {
        assert r[j] == vs[j - 1];
      } else {
        assert r[i] == vs[i - 1] && r[j] == vs[j - 1];
      }
    }
  }

  /** A sorted permutation (one of those sort.Sort may produce). */
  function SortByVersion(vs: seq<Version>): (r: seq<Version>)
    ensures multiset(r) == multiset(vs)
    ensures |r| == |vs|
  {
    if vs == [] then []
    else
      assert vs == [vs[0]] + vs[1..];
      InsertByVersion(vs[0], SortByVersion(vs[1..]))
  }

  /** What sort.Sort promises: the result is sorted by version and a permutation of the input. */
  lemma {:induction false} SortByVersionSorts(vs: seq<Version>)
    ensures Sorted(SortByVersion(vs))
    ensures multiset(SortByVersion(vs)) == multiset(vs)
  {
    if vs != [] {
      SortByVersionSorts(vs[1..]);
      InsertKeepsSorted(vs[0], SortByVersion(vs[1..]));
    }
  }

  /**
   * sort.Sort is not stable, but when the parsed versions are pairwise different there
   * is only one sorted order: any two sorted permutations are equal.
   */
  lemma {:induction false} SortedPermutationIsUnique(a: seq<Version>, b: seq<Version>)
    requires Sorted(a) && Sorted(b) && multiset(a) == multiset(b)
    requires DistinctVersions(a)
    ensures a == b
  {
    if a != [] {
      assert |b| == |a| by { assert |multiset(a)| == |multiset(b)|; }
      assert b[0] in multiset(a);
      var m :| 0 <= m < |a| && a[m] == b[0];
      assert a[0] in multiset(b);
      var k :| 0 <= k < |b| && b[k] == a[0];
      assert AtMost(a[0].full, a[m].full) by { assert m == 0 || AtMost(a[0].full, a[m].full); }
      assert AtMost(b[0].full, b[k].full) by { assert k == 0 || AtMost(b[0].full, b[k].full); }
      AtMostIsTotalOrder(a[0].full, a[m].full, a[0].full);
      assert m == 0;
      assert a[0] == b[0];
      SameTails(a, b);
      TailSorted(a);
      TailSorted(b);
      SortedPermutationIsUnique(a[1..], b[1..]);
    }
  }

  /** Two permutations with the same head are permutations after it. */
  lemma SameTails(a: seq<Version>, b: seq<Version>)
    requires a != [] && b != [] && a[0] == b[0] && multiset(a) == multiset(b)
    ensures multiset(a[1..]) == multiset(b[1..])
  {
    assert a == [a[0]] + a[1..];
    assert b == [b[0]] + b[1..];
    var x := multiset{a[0]};
    assert multiset(a) == x + multiset(a[1..]);
    assert multiset(b) == x + multiset(b[1..]);
    forall e ensures multiset(a[1..])[e] == multiset(b[1..])[e] {
      assert multiset(a)[e] == x[e] + multiset(a[1..])[e];
      assert multiset(b)[e] == x[e] + multiset(b[1..])[e];
    }
  }

  lemma TailSorted(a: seq<Version>)
    requires a != [] && Sorted(a)
    ensures Sorted(a[1..])
    ensures DistinctVersions(a) ==> DistinctVersions(a[1..])
  {
    assert forall i :: 0 <= i < |a| - 1 ==> a[1..][i] == a[i + 1];
  }

  /** Stat and EvalSymlinks both succeed on a candidate: the resolved path, else None. */
  function Probe(host: Host, candidate: string): Option<string> {
    if host.stat(candidate) then host.resolve(candidate) else None
  }

  /** The record setServer leaves behind: `v` with each tool path replaced by its probed
      candidate when the probe succeeds, every other field as it was. */
  function WithTools(host: Host, v: Version, fpm: string, cgi: string, phpconfig: string,
                     phpize: string, phpdbg: string): Version
  {
    v.(fpmPath := Probe(host, fpm).GetOr(v.fpmPath), cgiPath := Probe(host, cgi).GetOr(v.cgiPath),
       phpConfigPath := Probe(host, phpconfig).GetOr(v.phpConfigPath),
       phpizePath := Probe(host, phpize).GetOr(v.phpizePath),
       phpdbgPath := Probe(host, phpdbg).GetOr(v.phpdbgPath))
  }

  /** The part of the log message that one probe adds: nothing when the probe failed. */
  function Note(tool: string, p: Option<string>): string {
    match p
    case Some(path) => ", with " + tool + ": " + path
    case None => ""
  }

  /** os.Stat then filepath.EvalSymlinks on one candidate path. */
  method ProbeTool(host: Host, candidate: string) returns (p: Option<string>)
    ensures p == Probe(host, candidate)
  {
    p := None;
    if host.stat(candidate) {
      p := host.resolve(candidate);
    }
  }

  /**
   * setServer: probe the five optional tools one after the other, recording each
   * one that exists and resolves, and build the log message.
   */
  method SetServer(host: Host, v: Version, fpm: string, cgi: string, phpconfig: string,
                   phpize: string, phpdbg: string) returns (r: Version, msg: string)
    ensures r == WithTools(host, v, fpm, cgi, phpconfig, phpize, phpdbg)
    ensures msg == "  Found PHP: " + v.phpPath
                   + Note("FPM", Probe(host, fpm)) + Note("CGI", Probe(host, cgi))
                   + Note("php-config", Probe(host, phpconfig)) + Note("phpize", Probe(host, phpize))
                   + Note("phpdbg", Probe(host, phpdbg))
  {
    msg := "  Found PHP: " + v.phpPath;
    var pFPM := ProbeTool(host, fpm);
    msg := msg + Note("FPM", pFPM);
    var pCGI := ProbeTool(host, cgi);
    msg := msg + Note("CGI", pCGI);
    var pConfig := ProbeTool(host, phpconfig);
    msg := msg + Note("php-config", pConfig);
    var pPhpize := ProbeTool(host, phpize);
    msg := msg + Note("phpize", pPhpize);
    var pDbg := ProbeTool(host, phpdbg);
    msg := msg + Note("phpdbg", pDbg);
    r := v.(fpmPath := pFPM.GetOr(v.fpmPath), cgiPath := pCGI.GetOr(v.cgiPath),
            phpConfigPath := pConfig.GetOr(v.phpConfigPath), phpizePath := pPhpize.GetOr(v.phpizePath),
            phpdbgPath := pDbg.GetOr(v.phpdbgPath));
  }
}
