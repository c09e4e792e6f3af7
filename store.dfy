/**
 * The PHP version store (store.go): the collection of discovered installations,
 * the rule that keeps one record per binary, the matcher from a requested
 * version string to one record, the upward search for a project's version file,
 * and the admission of records read back from the cache.
 */
module Store {
  import opened Wrappers
  import opened Text
  import opened Paths
  import opened Machine
  import opened PhpVersion
  import opened Discovery

  /** What bestVersion and fallbackVersion hand back: a record with its source and
      warning, or no record and an error. */
  datatype Lookup =
    | Found(record: Version, source: string, warning: string)
    | NotFound(warning: string, error: string)

  /* ---------------------------------------------------------------- addVersion */

  /** The capability score addVersion compares: FPM beats CGI beats neither. */
  function Score(v: Version): (n: nat)
    ensures n <= 2
  {
    if v.fpmPath != "" then 2 else if v.cgiPath != "" then 1 else 0
  }

  /** For a record that is not FrankenPHP, the score ranks the serving type. */
  lemma ScoreRanksServerType(v: Version)
    requires !v.frankenPHP
    ensures Score(v) == 2 <==> IsFPMServer(v)
    ensures Score(v) == 1 <==> IsCGIServer(v)
    ensures Score(v) == 0 <==> IsCLIServer(v)
  {
  }

  /** Every entry of `seen` names a slot of `vs`. */
  predicate SlotsInRange(vs: seq<Version>, seen: map<string, int>) {
    forall p :: p in seen ==> 0 <= seen[p] < |vs|
  }

  /** The slot addVersion finds for a binary: by its own path, else by its resolved target. */
  function SeenIndex(seen: map<string, int>, phpPath: string, target: string): Option<int> {
    if phpPath in seen then Some(seen[phpPath])
    else if target != "" && target in seen then Some(seen[target])
    else None
  }

  /** The store's collection after an addVersion, with the index it returned. */
  datatype Added = Added(versions: seq<Version>, seen: map<string, int>, idx: int)

  /**
   * addVersion on values. `target` is what EvalSymlinks made of the binary path,
   * "" when it failed. An unseen binary is appended and both its path and its
   * target are mapped to the new slot; a seen one replaces its slot only when it
   * scores strictly higher.
   */
  function Add(vs: seq<Version>, seen: map<string, int>, v: Version, target: string): (a: Added)
    requires SlotsInRange(vs, seen)
    ensures SlotsInRange(a.versions, a.seen)
    ensures 0 <= a.idx < |a.versions|
  {
    match SeenIndex(seen, v.phpPath, target)
    case None =>
      var n := |vs|;
      var withPath := seen[v.phpPath := n];
      Added(vs + [v], if target != "" then withPath[target := n] else withPath, n)
    case Some(i) =>
      Added(if Score(v) > Score(vs[i]) then vs[i := v] else vs, seen, i)
  }

  /** An unseen binary is appended and mapped, by path and target, to the new slot. */
  lemma AddUnseen(vs: seq<Version>, seen: map<string, int>, v: Version, target: string)
    requires SlotsInRange(vs, seen) && SeenIndex(seen, v.phpPath, target).None?
    ensures var a := Add(vs, seen, v, target);
      && a.idx == |vs| && a.versions == vs + [v]
      && v.phpPath in a.seen && a.seen[v.phpPath] == a.idx
      && (target != "" ==> target in a.seen && a.seen[target] == a.idx)
      && (forall p :: p != v.phpPath && p != target ==>
            (p in a.seen <==> p in seen) && (p in seen ==> a.seen[p] == seen[p]))
  {
  }

  /** A seen binary keeps the length, returns its slot and only ever rewrites that slot. */
  lemma AddSeen(vs: seq<Version>, seen: map<string, int>, v: Version, target: string, i: int)
    requires SlotsInRange(vs, seen) && SeenIndex(seen, v.phpPath, target) == Some(i)
    ensures var a := Add(vs, seen, v, target);
      && a.idx == i && |a.versions| == |vs| && a.seen == seen
      && a.versions[i] == (if Score(v) > Score(vs[i]) then v else vs[i])
      && (forall k :: 0 <= k < |vs| && k != i ==> a.versions[k] == vs[k])
  {
  }

  /** Adding the same record twice is the same as adding it once. */
  lemma {:induction false} AddTwice(vs: seq<Version>, seen: map<string, int>, v: Version, target: string)
    requires SlotsInRange(vs, seen)
    ensures var a := Add(vs, seen, v, target);
      Add(a.versions, a.seen, v, target) == a
  {
    var a := Add(vs, seen, v, target);
    assert SeenIndex(a.seen, v.phpPath, target) == Some(a.idx) by {
      match SeenIndex(seen, v.phpPath, target)
      case None =>
      case Some(i) =>
    }
    assert Score(v) <= Score(a.versions[a.idx]);
  }

  /**
   * Two records for the same binary with different scores: whichever arrives
   * first, the store ends up holding the higher-scored one, in the same slot.
   */
  lemma {:induction false} HigherScoreSurvives(vs: seq<Version>, seen: map<string, int>,
                                               x: Version, y: Version, target: string)
    requires SlotsInRange(vs, seen) && SeenIndex(seen, x.phpPath, target).None?
    requires x.phpPath == y.phpPath && Score(x) > Score(y)
    ensures var xy := Add(Add(vs, seen, x, target).versions, Add(vs, seen, x, target).seen, y, target);
      var yx := Add(Add(vs, seen, y, target).versions, Add(vs, seen, y, target).seen, x, target);
      && xy == yx
      && xy.versions == vs + [x] && xy.idx == |vs|
  {
    AddUnseen(vs, seen, x, target);
    AddUnseen(vs, seen, y, target);
    var ax := Add(vs, seen, x, target);
    var ay := Add(vs, seen, y, target);
    assert ax.seen == ay.seen;
    assert SeenIndex(ax.seen, y.phpPath, target) == Some(|vs|);
    assert (vs + [y])[|vs| := x] == vs + [x];
  }

  /** Some stored Version string starts with `q`. */
  predicate Available(vs: seq<Version>, q: string) {
    exists k :: 0 <= k < |vs| && HasPrefix(vs[k].version, q)
  }

  /** A record just added for an unseen binary is available under its own version string. */
  lemma AvailableAfterAdd(vs: seq<Version>, seen: map<string, int>, v: Version, target: string)
    requires SlotsInRange(vs, seen) && SeenIndex(seen, v.phpPath, target).None?
    ensures Available(Add(vs, seen, v, target).versions, v.version)
  {
    var a := Add(vs, seen, v, target);
    assert a.versions[|vs|] == v;
    assert HasPrefix(a.versions[|vs|].version, v.version);
  }

  /** A record stays available through any later addVersion, whatever it replaces,
      as long as the replacing record carries the same version string. */
  lemma {:induction false} AvailableKept(vs: seq<Version>, seen: map<string, int>, v: Version,
                                         target: string, q: string)
    requires SlotsInRange(vs, seen) && Available(vs, q)
    requires forall k :: 0 <= k < |vs| && vs[k].phpPath == v.phpPath ==> vs[k].version == v.version
    requires SeenIndex(seen, v.phpPath, target).Some? ==>
               vs[SeenIndex(seen, v.phpPath, target).value].version == v.version
    ensures Available(Add(vs, seen, v, target).versions, q)
  {
    var a := Add(vs, seen, v, target);
    var k :| 0 <= k < |vs| && HasPrefix(vs[k].version, q);
    assert a.versions[k].version == vs[k].version;
  }

  /* ---------------------------------------------------------------- bestVersion */

  /** The lowest index whose Version string is exactly `s`. */
  function FirstExact(vs: seq<Version>, s: string): (r: Option<nat>)
    ensures r.Some? ==> r.value < |vs| && vs[r.value].version == s
  {
    if vs == [] then None
    else if vs[0].version == s then Some(0)
    else
      match FirstExact(vs[1..], s)
      case None => None
      case Some(i) =>
        assert vs[i + 1] == vs[1..][i];
        Some(i + 1)
  }

  /** The index found is the first with that Version string; None means there is none. */
  lemma {:induction false} FirstExactIsFirst(vs: seq<Version>, s: string)
    ensures var r := FirstExact(vs, s);
      && (r.Some? ==> forall k :: 0 <= k < r.value ==> vs[k].version != s)
      && (r.None? <==> forall k :: 0 <= k < |vs| ==> vs[k].version != s)
  {
    if vs != [] && vs[0].version != s {
      FirstExactIsFirst(vs[1..], s);
      assert forall k :: 1 <= k < |vs| ==> vs[k] == vs[1..][k - 1];
    }
  }

  /** The highest index whose Version string starts with `q`. */
  function LastWithPrefix(vs: seq<Version>, q: string): (r: Option<nat>)
    ensures r.Some? ==> r.value < |vs| && HasPrefix(vs[r.value].version, q)
  {
    if vs == [] then None
    else if HasPrefix(vs[|vs| - 1].version, q) then Some(|vs| - 1)
    else
      var r := LastWithPrefix(vs[..|vs| - 1], q);
      assert r.Some? ==> vs[r.value] == vs[..|vs| - 1][r.value];
      r
  }

  /** An index with that Version string, and none before it, is the one found. */
  lemma FirstExactAt(vs: seq<Version>, s: string, i: nat)
    requires i < |vs| && vs[i].version == s
    requires forall k :: 0 <= k < i ==> vs[k].version != s
    ensures FirstExact(vs, s) == Some(i)
  {
    var r := FirstExact(vs, s);
    FirstExactIsFirst(vs, s);
    assert r.Some?;
    assert r.value <= i;
    assert r.value >= i;
  }

  /** The index found is the last whose Version string has the prefix; None means
      no record is available under it. */
  lemma {:induction false} LastWithPrefixIsLast(vs: seq<Version>, q: string)
    ensures var r := LastWithPrefix(vs, q);
      && (r.Some? ==> forall k :: r.value < k < |vs| ==> !HasPrefix(vs[k].version, q))
      && (r.None? <==> !Available(vs, q))
  {
    if vs != [] {
      var n := |vs| - 1;
      if !HasPrefix(vs[n].version, q) {
        LastWithPrefixIsLast(vs[..n], q);
        assert forall k :: 0 <= k < n ==> vs[k] == vs[..n][k];
      }
    }
  }
  /** An index with the prefix, and none after it, is the one found. */
  lemma LastWithPrefixAt(vs: seq<Version>, q: string, i: nat)
    requires i < |vs| && HasPrefix(vs[i].version, q)
    requires forall k :: i < k < |vs| ==> !HasPrefix(vs[k].version, q)
    ensures LastWithPrefix(vs, q) == Some(i)
  {
    var r := LastWithPrefix(vs, q);
    LastWithPrefixIsLast(vs, q);
    assert r.Some?;
    assert r.value >= i;
    assert r.value <= i;
  }


  /** How bestVersion reads the requested prefix: an exact patch request with the minor
      prefix to fall back to, or a plain prefix. */
  datatype Request = Exact(patch: string, minor: string) | Prefix(prefix: string)

  function ReadRequest(p: string): Request {
    var pos := LastIndexByte(p, '.');
    IndexByteIsFirst(p, '.');
    LastIndexByteIsLast(p, '.');
    if pos == IndexByte(p, '.') then Prefix(p)
    else if p[pos + 1..] == "99" then Prefix(p[..pos])
    else Exact(p, p[..pos])
  }

  /** With at most one dot the request is a plain prefix. */
  lemma RequestWithOneDot(p: string)
    requires CountChar(p, '.') <= 1
    ensures ReadRequest(p) == Prefix(p)
  {
    if '.' in p {
      var i, j := IndexByte(p, '.'), LastIndexByte(p, '.');
      IndexByteIsFirst(p, '.');
      LastIndexByteIsLast(p, '.');
      if i != j {
        assert i < j;
        CountTwo(p, '.', i, j);
      }
    }
  }

  lemma {:induction false} CountTwo(s: string, c: char, i: nat, j: nat)
    requires i < j < |s| && s[i] == c && s[j] == c
    ensures CountChar(s, c) >= 2
  {
    if i == 0 {
      assert s[1..][j - 1] == c;
    } else {
      assert s[1..][i - 1] == c && s[1..][j - 1] == c;
      CountTwo(s[1..], c, i - 1, j - 1);
    }
  }

  /** With two or more dots the last component decides: "99" is a wildcard that is
      dropped, anything else asks for that exact patch release. */
  lemma RequestWithTwoDots(a: string, b: string)
    requires '.' in a && '.' !in b
    ensures ReadRequest(a + "." + b) == if b == "99" then Prefix(a) else Exact(a + "." + b, a)
  {
    var p := a + "." + b;
    assert p[|a|] == '.';
    assert forall k :: |a| < k < |p| ==> p[k] == b[k - |a| - 1];
    LastIndexByteAt(p, '.', |a|);
    var i :| 0 <= i < |a| && a[i] == '.';
    assert p[i] == '.';
    IndexByteIsFirst(p, '.');
    assert IndexByte(p, '.') <= i;
    assert p[|a| + 1..] == b && p[..|a|] == a;
  }

  /** The warning for a missing patch release that falls back to its minor version. */
  function FallbackWarning(patch: string, source: string, minor: string): (w: string)
    ensures w != ""
  {
    "the current dir requires PHP " + patch + " (" + source + "), but this version is not available: fallback to " + minor
  }

  /** The warning passed to fallbackVersion when no record matches. */
  function NotAvailable(prefix: string, source: string): (w: string)
    ensures w != ""
  {
    "the current dir requires PHP " + prefix + " (" + source + "), but this version is not available"
  }

  /** fallbackVersion: the PATH default, else the last record, else the error. */
  function Fallback(vs: seq<Version>, pathVersion: Option<Version>, w: string): Lookup {
    if pathVersion.Some? then Found(pathVersion.value, "default version in $PATH", w)
    else if |vs| == 0 then NotFound(w, "no PHP binaries detected")
    else Found(vs[|vs| - 1], "most recent PHP version", w)
  }

  /** The fallback keeps the caller's warning, and fails only when there is neither a
      PATH default nor any record; the PATH default comes first. */
  lemma FallbackCases(vs: seq<Version>, pathVersion: Option<Version>, w: string)
    ensures var r := Fallback(vs, pathVersion, w);
      && r.warning == w
      && (r.NotFound? <==> pathVersion.None? && vs == [])
      && (r.NotFound? ==> r.error == "no PHP binaries detected")
      && (pathVersion.Some? ==> r == Found(pathVersion.value, "default version in $PATH", w))
      && (pathVersion.None? && vs != [] ==> r.Found? && r.record in vs && r.source == "most recent PHP version")
  {
  }

  /** On a sorted store without PATH default, the fallback is the most recent version. */
  lemma FallbackIsMostRecent(vs: seq<Version>, w: string)
    requires Sorted(vs) && vs != []
    ensures var r := Fallback(vs, None, w);
      r.Found? && forall k :: 0 <= k < |vs| ==> AtMost(vs[k].full, r.record.full)
  {
    var r := Fallback(vs, None, w);
    assert r.record == vs[|vs| - 1];
    forall k | 0 <= k < |vs| ensures AtMost(vs[k].full, r.record.full) {
      if k < |vs| - 1 {
      } else {
        AtMostIsTotalOrder(vs[k].full, vs[k].full, vs[k].full);
      }
    }
  }

  /** The prefix scan, with the warning to attach when it finds a record. */
  function ScanPrefix(vs: seq<Version>, pathVersion: Option<Version>, q: string,
                      source: string, w: string): Lookup
  {
    match LastWithPrefix(vs, q)
    case Some(i) => Found(vs[i], source, w)
    case None => Fallback(vs, pathVersion, NotAvailable(q, source))
  }

  /** What bestVersion returns for a requested prefix. */
  function BestVersionOf(vs: seq<Version>, pathVersion: Option<Version>, p: string, source: string): Lookup {
    match ReadRequest(p)
    case Prefix(q) => ScanPrefix(vs, pathVersion, q, source, "")
    case Exact(patch, minor) =>
      match FirstExact(vs, patch)
      case Some(i) => Found(vs[i], source, "")
      case None => ScanPrefix(vs, pathVersion, minor, source, FallbackWarning(patch, source, minor))
  }

  /** An exact patch request that is installed returns it, with the caller's source and no warning. */
  lemma BestExactHit(vs: seq<Version>, pv: Option<Version>, a: string, b: string, source: string, i: nat)
    requires '.' in a && '.' !in b && b != "99"
    requires i < |vs| && vs[i].version == a + "." + b
    ensures var r := BestVersionOf(vs, pv, a + "." + b, source);
      r.Found? && r.record.version == a + "." + b && r.source == source && r.warning == ""
  {
    RequestWithTwoDots(a, b);
    FirstExactIsFirst(vs, a + "." + b);
  }

  /** A ".99" patch is a wildcard: the lookup is the minor prefix scan, without a warning. */
  lemma BestWildcard(vs: seq<Version>, pv: Option<Version>, a: string, source: string)
    requires '.' in a
    ensures BestVersionOf(vs, pv, a + ".99", source) == ScanPrefix(vs, pv, a, source, "")
    ensures Available(vs, a) ==> BestVersionOf(vs, pv, a + ".99", source).warning == ""
  {
    RequestWithTwoDots(a, "99");
    LastWithPrefixIsLast(vs, a);
    assert a + "." + "99" == a + ".99";
  }

  /** A missing patch release falls back to the minor prefix and says so. */
  lemma BestPatchMiss(vs: seq<Version>, pv: Option<Version>, a: string, b: string, source: string)
    requires '.' in a && '.' !in b && b != "99"
    requires forall k :: 0 <= k < |vs| ==> vs[k].version != a + "." + b
    ensures BestVersionOf(vs, pv, a + "." + b, source)
         == ScanPrefix(vs, pv, a, source, FallbackWarning(a + "." + b, source, a))
    ensures Available(vs, a) ==> BestVersionOf(vs, pv, a + "." + b, source).warning != ""
  {
    RequestWithTwoDots(a, b);
    FirstExactIsFirst(vs, a + "." + b);
    LastWithPrefixIsLast(vs, a);
  }

  /** On a sorted store the prefix scan finds the most recent matching version. */
  lemma ScanFindsLatest(vs: seq<Version>, pv: Option<Version>, q: string, source: string, w: string)
    requires Sorted(vs) && Available(vs, q)
    ensures var r := ScanPrefix(vs, pv, q, source, w);
      && r == Found(r.record, source, w) && HasPrefix(r.record.version, q)
      && forall k :: 0 <= k < |vs| && HasPrefix(vs[k].version, q) ==> AtMost(vs[k].full, r.record.full)
  {
    LastWithPrefixIsLast(vs, q);
    var i := LastWithPrefix(vs, q).value;
    forall k | 0 <= k < |vs| && HasPrefix(vs[k].version, q) ensures AtMost(vs[k].full, vs[i].full) {
      if k < i {
      } else {
        assert k == i;
        AtMostIsTotalOrder(vs[k].full, vs[k].full, vs[k].full);
      }
    }
  }

  /** The only way to get no record at all: no match, no PATH default and an empty store. */
  lemma BestNotFound(vs: seq<Version>, pv: Option<Version>, p: string, source: string)
    ensures BestVersionOf(vs, pv, p, source).NotFound? <==> vs == [] && pv.None?
  {
    if vs == [] {
      assert !Available(vs, p);
      match ReadRequest(p)
      case Prefix(q) => assert !Available(vs, q);
      case Exact(patch, minor) => assert !Available(vs, minor);
    }
  }

  /* ---------------------------------------------------------------- versionForDir */

  /** The file exists, can be read, and holds more than white space. */
  predicate HasVersionFile(host: Host, file: string) {
    host.stat(file) && host.readFile(file).Some? && !AllSpace(host.readFile(file).value)
  }

  /** readVersion: the trimmed content of an existing, readable file. Blank content
      counts as no file, because bytes.TrimSpace then yields nil. */
  function ReadVersion(host: Host, file: string): (r: Option<string>)
    ensures r.Some? <==> HasVersionFile(host, file)
  {
    if !host.stat(file) then None
    else match host.readFile(file)
      case None => None
      case Some(contents) => if AllSpace(contents) then None else Some(TrimSpace(contents))
  }

  /** What readVersion returns is never empty: bytes.TrimSpace is empty exactly on blank content. */
  lemma ReadVersionNotBlank(host: Host, file: string)
    requires HasVersionFile(host, file)
    ensures ReadVersion(host, file) == Some(TrimSpace(host.readFile(file).value))
    ensures ReadVersion(host, file).value != ""
  {
    TrimSpaceBlank(host.readFile(file).value);
  }

  /** The directories versionForDir visits: `dir`, then each parent, until Dir stops
      moving or reaches ".". */
  function Ancestors(dir: string): (r: seq<string>)
    ensures |r| >= 1 && r[0] == dir
    decreases |dir|
  {
    var up := Dir(dir);
    if up == dir || up == "." then [dir] else [dir] + Ancestors(up)
  }

  /** Each directory visited is the parent of the one before, and the walk stops
      where Dir no longer moves or reaches ".". */
  lemma {:induction false} AncestorsAreParents(dir: string)
    ensures var r := Ancestors(dir);
      (forall k :: 0 < k < |r| ==> r[k] == Dir(r[k - 1]) && |r[k]| < |r[k - 1]|)
      && (Dir(r[|r| - 1]) == r[|r| - 1] || Dir(r[|r| - 1]) == ".")
    decreases |dir|
  {
    var up := Dir(dir);
    if up != dir && up != "." {
      var rest := Ancestors(up);
      AncestorsAreParents(up);
      var r := [dir] + rest;
      assert Ancestors(dir) == r;
      forall k | 0 < k < |r|
        ensures r[k] == Dir(r[k - 1]) && |r[k]| < |r[k - 1]|
      {
        assert r[k] == rest[k - 1];
        if k > 1 {
          assert r[k - 1] == rest[k - 2];
        }
      }
      assert r[|r| - 1] == rest[|rest| - 1];
    }
  }

  /** Each path is strictly shorter than every one before it. */
  predicate Shrinking(r: seq<string>) {
    forall i, j :: 0 <= i < j < |r| ==> |r[j]| < |r[i]|
  }

  /** The ancestors get strictly shorter, so each is visited once. */
  lemma {:induction false} AncestorsShrink(dir: string)
    ensures Shrinking(Ancestors(dir))
    decreases |dir|
  {
    var r := Ancestors(dir);
    if |r| > 1 {
      var up := Dir(dir);
      AncestorsShrink(up);
      assert r[1..] == Ancestors(up);
      forall i, j | 0 <= i < j < |r| ensures |r[j]| < |r[i]| {
        if i == 0 && j > 1 {
          assert r[1..][j - 1] == r[j] && r[1..][0] == r[1];
        } else if i > 0 {
          assert r[1..][j - 1] == r[j] && r[1..][i - 1] == r[i];
        }
      }
    }
  }

  lemma LongerComesFirst(r: seq<string>, i: nat, k: nat)
    requires Shrinking(r)
    requires i < |r| && k < |r| && |r[k]| > |r[i]|
    ensures k < i
  {
  }

  /** A version file found by the upward search: its trimmed content and its directory. */
  datatype Hit = Hit(content: string, dir: string)

  /** What versionForDir finds: the file in `dir` if it reads as a version, else the
      search from the parent, until Dir stops moving or reaches ".". */
  function FindUp(host: Host, dir: string, filename: string): Option<Hit>
    decreases |dir|
  {
    match ReadVersion(host, Join(dir, filename))
    case Some(content) => Some(Hit(content, dir))
    case None =>
      var up := Dir(dir);
      if up == dir || up == "." then None else FindUp(host, up, filename)
  }

  /** `i` is the first of the ancestors whose file reads as a version. */
  predicate FirstWithFile(host: Host, dirs: seq<string>, filename: string, i: int) {
    && 0 <= i < |dirs|
    && HasVersionFile(host, Join(dirs[i], filename))
    && forall k :: 0 <= k < i ==> !HasVersionFile(host, Join(dirs[k], filename))
  }

  /** The search finds the first of the ancestors whose file reads as a version,
      and nothing when none of them has one. */
  lemma {:induction false} FindUpIsFirst(host: Host, dir: string, filename: string)
    ensures var dirs := Ancestors(dir);
      match FindUp(host, dir, filename)
      case None => forall k :: 0 <= k < |dirs| ==> !HasVersionFile(host, Join(dirs[k], filename))
      case Some(h) =>
        && ReadVersion(host, Join(h.dir, filename)) == Some(h.content)
        && exists i :: FirstWithFile(host, dirs, filename, i) && dirs[i] == h.dir
    decreases |dir|
  {
    var dirs := Ancestors(dir);
    var up := Dir(dir);
    if HasVersionFile(host, Join(dir, filename)) {
      assert FirstWithFile(host, dirs, filename, 0);
    } else if up == dir || up == "." {
      assert dirs == [dir];
    } else {
      FindUpIsFirst(host, up, filename);
      var rest := Ancestors(up);
      assert dirs == [dir] + rest;
      match FindUp(host, up, filename)
      case None =>
        forall k | 0 <= k < |dirs| ensures !HasVersionFile(host, Join(dirs[k], filename)) {
          if k > 0 {
            assert dirs[k] == rest[k - 1];
          }
        }
      case Some(h) =>
        var i :| FirstWithFile(host, rest, filename, i) && rest[i] == h.dir;
        forall k | 0 <= k < i + 1 ensures !HasVersionFile(host, Join(dirs[k], filename)) {
          if k > 0 {
            assert dirs[k] == rest[k - 1];
          }
        }
        assert dirs[i + 1] == rest[i];
        assert FirstWithFile(host, dirs, filename, i + 1);
    }
  }

  /** The hit is the closest ancestor holding the file: no longer ancestor has one. */
  lemma FindUpIsClosest(host: Host, dir: string, filename: string)
    ensures var dirs := Ancestors(dir);
      match FindUp(host, dir, filename)
      case None => forall k :: 0 <= k < |dirs| ==> !HasVersionFile(host, Join(dirs[k], filename))
      case Some(h) =>
        && h.dir in dirs
        && ReadVersion(host, Join(h.dir, filename)) == Some(h.content)
        && forall k :: 0 <= k < |dirs| && |dirs[k]| > |h.dir| ==> !HasVersionFile(host, Join(dirs[k], filename))
  {
    var dirs := Ancestors(dir);
    AncestorsShrink(dir);
    FindUpIsFirst(host, dir, filename);
    match FindUp(host, dir, filename)
    case None =>
    case Some(h) =>
      var i :| FirstWithFile(host, dirs, filename, i) && dirs[i] == h.dir;
      forall k | 0 <= k < |dirs| && |dirs[k]| > |dirs[i]|
        ensures !HasVersionFile(host, Join(dirs[k], filename))
      {
        LongerComesFirst(dirs, i, k);
      }
  }

  /* ---------------------------------------------------------------- loadVersions */

  /** What version.NewVersion makes of each decoded record's Version string. */
  function Parses(decoded: seq<Version>): (ps: seq<Option<Triple>>)
    ensures |ps| == |decoded|
  {
    seq(|decoded|, k requires 0 <= k < |decoded| => ParseVersion(decoded[k].version))
  }

  /** The records whose parse succeeded, each with that parse filled in, in order. */
  function Keep(decoded: seq<Version>, ps: seq<Option<Triple>>): (r: seq<Version>)
    requires |ps| == |decoded|
    ensures |r| <= |decoded|
  {
    if decoded == [] then []
    else
      var n := |decoded| - 1;
      Keep(decoded[..n], ps[..n]) + (if ps[n].Some? then [decoded[n].(full := ps[n].value)] else [])
  }

  /** The records of a decoded cache that loadVersions keeps. */
  function Admitted(decoded: seq<Version>): seq<Version> {
    Keep(decoded, Parses(decoded))
  }

  /** The PATH default after reading the cache: the last kept record marked as the
      system PHP, or `prior` when there is none. */
  function SystemAfter(decoded: seq<Version>, ps: seq<Option<Triple>>, prior: Option<Version>): Option<Version>
    requires |ps| == |decoded|
  {
    if decoded == [] then prior
    else
      var n := |decoded| - 1;
      if ps[n].Some? && decoded[n].isSystem then Some(decoded[n].(full := ps[n].value))
      else SystemAfter(decoded[..n], ps[..n], prior)
  }

  function PathDefault(decoded: seq<Version>, prior: Option<Version>): Option<Version> {
    SystemAfter(decoded, Parses(decoded), prior)
  }

  /** One more record, with its parse. */
  lemma KeepSnoc(d: seq<Version>, ps: seq<Option<Triple>>, v: Version, p: Option<Triple>, prior: Option<Version>)
    requires |ps| == |d|
    ensures Keep(d + [v], ps + [p]) == Keep(d, ps) + (if p.Some? then [v.(full := p.value)] else [])
    ensures SystemAfter(d + [v], ps + [p], prior)
         == if p.Some? && v.isSystem then Some(v.(full := p.value)) else SystemAfter(d, ps, prior)
  {
    assert (d + [v])[..|d|] == d;
    assert (ps + [p])[..|d|] == ps;
  }

  /** The admission loop of loadVersions: each decoded record whose Version string
      parses is kept with that parse, and the last kept system record is the PATH default. */
  method AdmitCached(decoded: seq<Version>, prior: Option<Version>) returns (kept: seq<Version>, pv: Option<Version>)
    ensures kept == Admitted(decoded)
    ensures pv == PathDefault(decoded, prior)
  {
    ghost var ps := Parses(decoded);
    kept, pv := [], prior;
    var i := 0;
    while i < |decoded|
      invariant 0 <= i <= |decoded|
      invariant kept == Keep(decoded[..i], ps[..i])
      invariant pv == SystemAfter(decoded[..i], ps[..i], prior)
    {
      var v := decoded[i];
      var parsed := ParseVersion(v.version);
      KeepStep(decoded, ps, i);
      if parsed.Some? {
        var admitted := v.(full := parsed.value);
        if admitted.isSystem {
          pv := Some(admitted);
        }
        kept := kept + [admitted];
      }
      i := i + 1;
    }
    assert decoded[..|decoded|] == decoded && ps[..|decoded|] == ps;
  }

  /** One more record of a decoded cache, with its parse. */
  lemma KeepStep(d: seq<Version>, ps: seq<Option<Triple>>, i: nat)
    requires |ps| == |d| && i < |d|
    ensures Keep(d[..i + 1], ps[..i + 1]) == Keep(d[..i], ps[..i]) + (if ps[i].Some? then [d[i].(full := ps[i].value)] else [])
    ensures forall prior ::
      SystemAfter(d[..i + 1], ps[..i + 1], prior)
        == if ps[i].Some? && d[i].isSystem then Some(d[i].(full := ps[i].value)) else SystemAfter(d[..i], ps[..i], prior)
  {
    assert d[..i + 1] == d[..i] + [d[i]];
    assert ps[..i + 1] == ps[..i] + [ps[i]];
    forall prior {
      KeepSnoc(d[..i], ps[..i], d[i], ps[i], prior);
    }
  }

  /** The parses of a prefix are the prefix of the parses. */
  lemma ParsesPrefix(d: seq<Version>, i: nat)
    requires i <= |d|
    ensures Parses(d)[..i] == Parses(d[..i])
  {
  }

  /** The parses of a concatenation. */
  lemma ParsesConcat(a: seq<Version>, b: seq<Version>)
    ensures Parses(a + b) == Parses(a) + Parses(b)
  {
    assert forall k :: 0 <= k < |a + b| ==> Parses(a + b)[k] == (Parses(a) + Parses(b))[k];
  }

  /** Every admitted record carries the parse of its own Version string. */
  lemma {:induction false} KeptAreParsed(d: seq<Version>, ps: seq<Option<Triple>>)
    requires |ps| == |d|
    requires forall k :: 0 <= k < |d| ==> ps[k] == ParseVersion(d[k].version)
    ensures forall k :: 0 <= k < |Keep(d, ps)| ==>
      ParseVersion(Keep(d, ps)[k].version) == Some(Keep(d, ps)[k].full)
  {
    if d != [] {
      var n := |d| - 1;
      KeptAreParsed(d[..n], ps[..n]);
    }
  }

  lemma AdmittedAreParsed(decoded: seq<Version>)
    ensures forall k :: 0 <= k < |Admitted(decoded)| ==>
      ParseVersion(Admitted(decoded)[k].version) == Some(Admitted(decoded)[k].full)
  {
    KeptAreParsed(decoded, Parses(decoded));
  }

  /** Keeping is record by record: it distributes over concatenation. */
  lemma {:induction false} KeepConcat(a: seq<Version>, pa: seq<Option<Triple>>, b: seq<Version>, pb: seq<Option<Triple>>)
    requires |pa| == |a| && |pb| == |b|
    ensures Keep(a + b, pa + pb) == Keep(a, pa) + Keep(b, pb)
    decreases |b|
  {
    if b == [] {
      assert a + b == a && pa + pb == pa;
    } else {
      var n := |b| - 1;
      assert a + b == (a + b[..n]) + [b[n]];
      assert pa + pb == (pa + pb[..n]) + [pb[n]];
      assert b == b[..n] + [b[n]] && pb == pb[..n] + [pb[n]];
      KeepSnoc(a + b[..n], pa + pb[..n], b[n], pb[n], None);
      KeepSnoc(b[..n], pb[..n], b[n], pb[n], None);
      KeepConcat(a, pa, b[..n], pb[..n]);
    }
  }

  lemma AdmittedConcat(a: seq<Version>, b: seq<Version>)
    ensures Admitted(a + b) == Admitted(a) + Admitted(b)
  {
    ParsesConcat(a, b);
    KeepConcat(a, Parses(a), b, Parses(b));
  }

  /** A corrupted record (one whose Version string does not parse) is dropped and
      leaves the rest of the cache as it is. */
  lemma CorruptRecordDropped(a: seq<Version>, v: Version, b: seq<Version>)
    requires ParseVersion(v.version).None?
    ensures Admitted(a + [v] + b) == Admitted(a) + Admitted(b)
  {
    AdmittedConcat(a + [v], b);
    AdmittedConcat(a, [v]);
    KeepSnoc([], [], v, ParseVersion(v.version), None);
    assert [] + [v] == [v];
  }

  /** A record whose Version string is what String() prints is kept unchanged when its
      segments fit go-version's int64 segments, and dropped otherwise. */
  lemma PrintedRecordKept(v: Version)
    requires v.version == VersionString(v.full)
    ensures Admitted([v]) == if FitsSegments(v.full) then [v] else []
  {
    ParseVersionString(v.full);
    assert Parses([v]) == [ParseVersion(v.version)];
    KeepSnoc([], [], v, ParseVersion(v.version), None);
    assert [] + [v] == [v];
    if FitsSegments(v.full) {
      assert v.(full := v.full) == v;
    }
  }

  /** The last admitted record marked as the system PHP, if any. */
  function LastSystem(vs: seq<Version>): Option<Version> {
    if vs == [] then None
    else if vs[|vs| - 1].isSystem then Some(vs[|vs| - 1])
    else LastSystem(vs[..|vs| - 1])
  }

  /** LastSystem finds a system record exactly when there is one, and it is the last. */
  lemma {:induction false} LastSystemIsLast(vs: seq<Version>)
    ensures LastSystem(vs).Some? <==> exists k :: 0 <= k < |vs| && vs[k].isSystem
    ensures LastSystem(vs).Some? ==>
      exists k :: 0 <= k < |vs| && vs[k] == LastSystem(vs).value && vs[k].isSystem
        && (forall j :: k < j < |vs| ==> !vs[j].isSystem)
  {
    if vs != [] && !vs[|vs| - 1].isSystem {
      var init := vs[..|vs| - 1];
      LastSystemIsLast(init);
      assert forall k :: 0 <= k < |init| ==> init[k] == vs[k];
      if LastSystem(vs).Some? {
        var k :| 0 <= k < |init| && init[k] == LastSystem(init).value && init[k].isSystem
          && (forall j :: k < j < |init| ==> !init[j].isSystem);
        assert vs[k] == LastSystem(vs).value;
      }
    }
  }

  /** The PATH default the cache leaves is its last admitted system record, if it has one. */
  lemma {:induction false} SystemAfterIsLastSystem(d: seq<Version>, ps: seq<Option<Triple>>, prior: Option<Version>)
    requires |ps| == |d|
    ensures SystemAfter(d, ps, prior) == if LastSystem(Keep(d, ps)).Some? then LastSystem(Keep(d, ps)) else prior
  {
    if d != [] {
      var n := |d| - 1;
      assert d == d[..n] + [d[n]] && ps == ps[..n] + [ps[n]];
      KeepSnoc(d[..n], ps[..n], d[n], ps[n], prior);
      SystemAfterIsLastSystem(d[..n], ps[..n], prior);
      var k := Keep(d[..n], ps[..n]);
      if ps[n].Some? {
        var w := d[n].(full := ps[n].value);
        assert (k + [w])[..|k|] == k;
      } else {
        assert k + [] == k;
      }
    }
  }

  lemma PathDefaultIsLastSystem(decoded: seq<Version>, prior: Option<Version>)
    ensures PathDefault(decoded, prior)
         == if LastSystem(Admitted(decoded)).Some? then LastSystem(Admitted(decoded)) else prior
  {
    SystemAfterIsLastSystem(decoded, Parses(decoded), prior);
  }

  /* ---------------------------------------------------------------- BestVersionForDir */

  /** A requirement for a version: the requested prefix and where it came from. */
  datatype Need = Need(prefix: string, source: string)

  /** The minor part of FORCED_PHP_VERSION: its first two dot-separated components. */
  function ForcedMinor(forced: string): string
    requires '.' in forced
  {
    var parts := Split(forced, '.');
    IndexByteIsFirst(forced, '.');
    assert parts == [parts[0]] + Split(forced[IndexByte(forced, '.') + 1..], '.');
    JoinWith(parts[..2], '.')
  }

  /** A project file's `type: php:<version>` line, if any. */
  function PhpType(t: Option<string>): Option<string> {
    if t.Some? && HasPrefix(t.value, "php:") then Some(t.value[4..]) else None
  }

  /**
   * The priority chain of BestVersionForDir: a forced version, then .php-version
   * and composer.json from the script's directory up, then .php-version from the
   * working directory up, then the two cloud configuration files. `composerPHP`
   * and `yamlType` stand for the JSON and YAML decoders (None: not decodable).
   */
  function Requirement(host: Host, dir: string, wd: Option<string>, forced: string,
                       composerPHP: string -> Option<string>, yamlType: string -> Option<string>): Option<Need>
    requires forced == "" || '.' in forced
  {
    if forced != "" && ParseVersion(ForcedMinor(forced)).Some? then
      Some(Need(ForcedMinor(forced), "internal forced version"))
    else
      FromLocalFile(host, dir, wd, composerPHP, yamlType)
  }

  function FromLocalFile(host: Host, dir: string, wd: Option<string>,
                         composerPHP: string -> Option<string>, yamlType: string -> Option<string>): Option<Need>
  {
    match FindUp(host, dir, ".php-version")
    case Some(h) => Some(Need(h.content, ".php-version from current dir: " + Join(h.dir, ".php-version")))
    case None => FromComposer(host, dir, wd, composerPHP, yamlType)
  }

  function FromComposer(host: Host, dir: string, wd: Option<string>,
                        composerPHP: string -> Option<string>, yamlType: string -> Option<string>): Option<Need>
  {
    var h := FindUp(host, dir, "composer.json");
    if h.Some? && composerPHP(h.value.content).Some? && composerPHP(h.value.content).value != "" then
      Some(Need(composerPHP(h.value.content).value, "composer.json from current dir: " + Join(h.value.dir, "composer.json")))
    else FromWorkDir(host, dir, wd, yamlType)
  }

  function FromWorkDir(host: Host, dir: string, wd: Option<string>, yamlType: string -> Option<string>): Option<Need> {
    var h := if wd.Some? then FindUp(host, wd.value, ".php-version") else None;
    if h.Some? then Some(Need(h.value.content, ".php-version from working dir: " + Join(h.value.dir, ".php-version")))
    else FromCloudFile(host, dir, ".symfony.cloud.yaml", "SymfonyCloud: ", yamlType,
                       FromCloudFile(host, dir, ".platform.app.yaml", "Platform.sh: ", yamlType, None))
  }

  /** A cloud configuration file whose `type` is `php:<version>`, else `otherwise`. */
  function FromCloudFile(host: Host, dir: string, filename: string, tag: string,
                         yamlType: string -> Option<string>, otherwise: Option<Need>): Option<Need>
  {
    var h := FindUp(host, dir, filename);
    if h.Some? && PhpType(yamlType(h.value.content)).Some? then
      Some(Need(PhpType(yamlType(h.value.content)).value, tag + Join(h.value.dir, filename)))
    else otherwise
  }

  /** The lookup a requirement leads to: bestVersion on it, or the fallback without warning. */
  function Answer(vs: seq<Version>, pathVersion: Option<Version>, need: Option<Need>): Lookup {
    match need
    case Some(n) => BestVersionOf(vs, pathVersion, n.prefix, n.source)
    case None => Fallback(vs, pathVersion, "")
  }

  /** A .php-version file above the script wins over every other project file. */
  lemma LocalVersionFileWins(host: Host, dir: string, wd: Option<string>,
                             composerPHP: string -> Option<string>, yamlType: string -> Option<string>)
    requires FindUp(host, dir, ".php-version").Some?
    ensures var h := FindUp(host, dir, ".php-version").value;
      Requirement(host, dir, wd, "", composerPHP, yamlType)
        == Some(Need(h.content, ".php-version from current dir: " + Join(h.dir, ".php-version")))
  {
  }

  /** A forced version overrides the project files whenever its minor part parses. */
  lemma ForcedVersionWins(host: Host, dir: string, wd: Option<string>, forced: string,
                          composerPHP: string -> Option<string>, yamlType: string -> Option<string>)
    requires '.' in forced && ParseVersion(ForcedMinor(forced)).Some?
    ensures Requirement(host, dir, wd, forced, composerPHP, yamlType)
         == Some(Need(ForcedMinor(forced), "internal forced version"))
  {
  }

  /* ---------------------------------------------------------------- the store */

  /* ---------------------------------------------------------------- discover */

  /** The part of the store discover changes. */
  datatype StoreState = StoreState(versions: seq<Version>, seen: map<string, int>, pathVersion: Option<Version>)

  predicate StateValid(s: StoreState) {
    SlotsInRange(s.versions, s.seen)
  }

  /**
   * One record found under PATH: addVersion, and when no system version is set yet,
   * the stored record becomes it and is marked as the system one. In Go pathVersion
   * points at the stored record, so the mark shows in the slot as well.
   */
  function Step(s: StoreState, host: Host, v: Version): (r: StoreState)
    requires StateValid(s)
    ensures StateValid(r)
  {
    var a := Add(s.versions, s.seen, v, host.resolve(v.phpPath).GetOr(""));
    if s.pathVersion.None? then
      var marked := a.versions[a.idx].(isSystem := true);
      StoreState(a.versions[a.idx := marked], a.seen, Some(marked))
    else StoreState(a.versions, a.seen, s.pathVersion)
  }

  /** The records found under PATH, added one after the other. */
  function DiscoverAll(s: StoreState, host: Host, records: seq<Version>): (r: StoreState)
    requires StateValid(s)
    ensures StateValid(r)
    decreases |records|
  {
    if records == [] then s
    else Step(DiscoverAll(s, host, records[..|records| - 1]), host, records[|records| - 1])
  }

  /** What findFromDir finds in each PATH directory, in order. */
  function Records(host: Host, dirs: seq<string>): seq<Version>
    decreases |dirs|
  {
    if dirs == [] then []
    else Records(host, dirs[..|dirs| - 1]) + FoundIn(host, dirs[|dirs| - 1], None)
  }

  /** The records discover finds under PATH, given PATH (Path on Windows) and USERPROFILE. */
  function PathRecords(host: Host, configDir: string, path: string, user: string): seq<Version> {
    Records(host, KeptDirs(host, Join(configDir, "bin"), user, SplitList(path, host.isWindows)))
  }

  /** One more PATH directory adds what findFromDir finds there. */
  lemma RecordsStep(host: Host, dirs: seq<string>, i: nat)
    requires i < |dirs|
    ensures Records(host, dirs[..i + 1]) == Records(host, dirs[..i]) + FoundWith(host, dirs[i], None, Discoverer(host))
  {
    assert dirs[..i + 1][..i] == dirs[..i];
  }

  /** Adding records in two batches is adding them all. */
  lemma {:induction false} DiscoverAllSplit(s: StoreState, host: Host, a: seq<Version>, b: seq<Version>)
    requires StateValid(s)
    ensures DiscoverAll(s, host, a + b) == DiscoverAll(DiscoverAll(s, host, a), host, b)
    decreases |b|
  {
    if b == [] {
      assert a + b == a;
    } else {
      assert (a + b)[..|a + b| - 1] == a + b[..|b| - 1];
      DiscoverAllSplit(s, host, a, b[..|b| - 1]);
    }
  }

  /** Once a system version is set, discovering more records keeps it. */
  lemma {:induction false} SystemVersionKept(s: StoreState, host: Host, records: seq<Version>)
    requires StateValid(s) && s.pathVersion.Some?
    ensures DiscoverAll(s, host, records).pathVersion == s.pathVersion
    decreases |records|
  {
    if records != [] {
      SystemVersionKept(s, host, records[..|records| - 1]);
    }
  }

  /** The system version is set once, by the first record found under PATH: it is the
      record in the slot addVersion returned for it, marked as the system one. Without any
      record it stays unset. */
  lemma FirstIsSystem(s: StoreState, host: Host, records: seq<Version>)
    requires StateValid(s) && s.pathVersion.None?
    ensures records == [] ==> DiscoverAll(s, host, records).pathVersion.None?
    ensures records != [] ==>
      var a := Add(s.versions, s.seen, records[0], host.resolve(records[0].phpPath).GetOr(""));
      && DiscoverAll(s, host, records).pathVersion == Some(a.versions[a.idx].(isSystem := true))
      && a.idx < |DiscoverAll(s, host, [records[0]]).versions|
      && DiscoverAll(s, host, [records[0]]).versions[a.idx] == DiscoverAll(s, host, records).pathVersion.value
  {
    if records != [] {
      var first := DiscoverAll(s, host, [records[0]]);
      assert [records[0]][..0] == [];
      DiscoverAllSplit(s, host, [records[0]], records[1..]);
      assert [records[0]] + records[1..] == records;
      SystemVersionKept(first, host, records[1..]);
    }
  }

  class PHPStore {
    const configDir: string
    var versions: seq<Version>
    var seen: map<string, int>
    var pathVersion: Option<Version>

    /** Every entry of `seen` names a slot, so addVersion never indexes out of range. */
    ghost predicate Valid()
      reads this
    {
      SlotsInRange(versions, seen)
    }

    /** The empty store New starts from, before any discovery or cache load. */
    constructor (configDir: string)
      ensures this.configDir == configDir
      ensures versions == [] && seen == map[] && pathVersion == None
      ensures Valid()
    {
      this.configDir := configDir;
      versions := [];
      seen := map[];
      pathVersion := None;
    }

    /** addVersion: keeps one record per binary; returns the record's slot. */
    method AddVersion(host: Host, v: Version) returns (idx: int)
      requires Valid()
      modifies this
      ensures Valid()
      ensures Added(versions, seen, idx) == Add(old(versions), old(seen), v, host.resolve(v.phpPath).GetOr(""))
      ensures pathVersion == old(pathVersion)
    {
      var target := host.resolve(v.phpPath).GetOr("");
      var ok := v.phpPath in seen;
      idx := 0;
      if ok {
        idx := seen[v.phpPath];
      } else if target != "" && target in seen {
        idx := seen[target];
        ok := true;
      }
      ghost var a := Add(versions, seen, v, target);
      if !ok {
        assert SeenIndex(seen, v.phpPath, target).None?;
        versions := versions + [v];
        seen := seen[v.phpPath := |versions| - 1];
        if target != "" {
          seen := seen[target := |versions| - 1];
        }
        return |versions| - 1;
      }
      assert SeenIndex(seen, v.phpPath, target) == Some(idx);
      if Score(v) > Score(versions[idx]) {
        versions := versions[idx := v];
      }
      assert Added(versions, seen, idx) == a;
    }

    /** IsVersionAvailable: scans from the end for a Version string with the prefix. */
    method IsVersionAvailable(q: string) returns (b: bool)
      ensures b <==> Available(versions, q)
    {
      var i := |versions| - 1;
      while i >= 0
        invariant -1 <= i < |versions|
        invariant forall k :: i < k < |versions| ==> !HasPrefix(versions[k].version, q)
      {
        var v := versions[i];
        if v.version == q || HasPrefix(v.version, q) {
          assert HasPrefix(versions[i].version, q);
          return true;
        }
        i := i - 1;
      }
      return false;
    }

    /** fallbackVersion */
    function FallbackVersion(warning: string): Lookup
      reads this
    {
      Fallback(versions, pathVersion, warning)
    }

    /** bestVersion: the record for a requested major, minor or patch version. */
    method BestVersion(versionPrefix: string, source: string) returns (r: Lookup)
      ensures r == BestVersionOf(versions, pathVersion, versionPrefix, source)
    {
      var prefix := versionPrefix;
      var warning := "";
      var isPatchVersion := false;
      var pos := LastIndexByte(prefix, '.');
      IndexByteIsFirst(prefix, '.');
      LastIndexByteIsLast(prefix, '.');
      if pos != IndexByte(prefix, '.') {
        if "99" == prefix[pos + 1..] {
          prefix := prefix[..pos];
          pos := LastIndexByte(prefix, '.');
        } else {
          isPatchVersion := true;
        }
      }
      ghost var req := ReadRequest(versionPrefix);
      assert isPatchVersion ==> req == Exact(prefix, prefix[..pos]);
      assert !isPatchVersion ==> req == Prefix(prefix);

      if isPatchVersion {
        var i := 0;
        while i < |versions|
          invariant 0 <= i <= |versions|
          invariant forall k :: 0 <= k < i ==> versions[k].version != prefix
        {
          if versions[i].version == prefix {
            FirstExactAt(versions, prefix, i);
            return Found(versions[i], source, "");
          }
          i := i + 1;
        }
        FirstExactIsFirst(versions, prefix);
        var newVersionPrefix := prefix[..pos];
        warning := FallbackWarning(prefix, source, newVersionPrefix);
        prefix := newVersionPrefix;
      }

      var i := |versions| - 1;
      while i >= 0
        invariant -1 <= i < |versions|
        invariant forall k :: i < k < |versions| ==> !HasPrefix(versions[k].version, prefix)
      {
        if HasPrefix(versions[i].version, prefix) {
          LastWithPrefixAt(versions, prefix, i);
          return Found(versions[i], source, warning);
        }
        i := i - 1;
      }
      LastWithPrefixIsLast(versions, prefix);
      r := FallbackVersion(NotAvailable(prefix, source));
    }

    /** versionForDir: walks up from `dir` until a readable `filename` turns up. */
    method VersionForDir(host: Host, dir: string, filename: string) returns (content: Option<string>, foundDir: string)
      ensures match FindUp(host, dir, filename)
        case Some(h) => content == Some(h.content) && foundDir == h.dir
        case None => content.None? && foundDir == ""
    {
      var d := dir;
      while true
        invariant FindUp(host, d, filename) == FindUp(host, dir, filename)
        decreases |d|
      {
        var found := ReadVersion(host, Join(d, filename));
        if found.Some? {
          return found, d;
        }
        var upDir := Dir(d);
        if upDir == d || upDir == "." {
          break;
        }
        d := upDir;
      }
      return None, "";
    }

    /** BestVersionForDir: the record for a script in `dir`, following the priority chain.
        Each branch of the chain ends in bestVersion, and the last in fallbackVersion. */
    method BestVersionForDir(host: Host, dir: string, wd: Option<string>, forced: string,
                             composerPHP: string -> Option<string>, yamlType: string -> Option<string>)
      returns (r: Lookup)
      requires forced == "" || '.' in forced
      ensures r == Answer(versions, pathVersion, Requirement(host, dir, wd, forced, composerPHP, yamlType))
    {
      var need := FindRequirement(host, dir, wd, forced, composerPHP, yamlType);
      if need.Some? {
        r := BestVersion(need.value.prefix, need.value.source);
      } else {
        r := FallbackVersion("");
      }
    }

    /** The branches of BestVersionForDir up to the point where each calls bestVersion:
        which version is asked for, and by which file. */
    method FindRequirement(host: Host, dir: string, wd: Option<string>, forced: string,
                           composerPHP: string -> Option<string>, yamlType: string -> Option<string>)
      returns (need: Option<Need>)
      requires forced == "" || '.' in forced
      ensures need == Requirement(host, dir, wd, forced, composerPHP, yamlType)
    {
      if forced != "" {
        var minorPHPVersion := ForcedMinor(forced);
        if ParseVersion(minorPHPVersion).Some? {
          return Some(Need(minorPHPVersion, "internal forced version"));
        }
      }
      need := FromProjectFiles(host, dir, wd, composerPHP, yamlType);
    }

    /** The project files BestVersionForDir reads when no version is forced. */
    method FromProjectFiles(host: Host, dir: string, wd: Option<string>,
                            composerPHP: string -> Option<string>, yamlType: string -> Option<string>)
      returns (need: Option<Need>)
      ensures need == FromLocalFile(host, dir, wd, composerPHP, yamlType)
    {
      var content, foundDir := VersionForDir(host, dir, ".php-version");
      if content.Some? {
        return Some(Need(content.value, ".php-version from current dir: " + Join(foundDir, ".php-version")));
      }
      assert FromLocalFile(host, dir, wd, composerPHP, yamlType) == FromComposer(host, dir, wd, composerPHP, yamlType);
      content, foundDir := VersionForDir(host, dir, "composer.json");
      if content.Some? {
        var php := composerPHP(content.value);
        if php.Some? && php.value != "" {
          return Some(Need(php.value, "composer.json from current dir: " + Join(foundDir, "composer.json")));
        }
      }
      assert FromComposer(host, dir, wd, composerPHP, yamlType) == FromWorkDir(host, dir, wd, yamlType);
      if wd.Some? {
        content, foundDir := VersionForDir(host, wd.value, ".php-version");
        if content.Some? {
          return Some(Need(content.value, ".php-version from working dir: " + Join(foundDir, ".php-version")));
        }
      }
      ghost var platform := FromCloudFile(host, dir, ".platform.app.yaml", "Platform.sh: ", yamlType, None);
      assert FromWorkDir(host, dir, wd, yamlType)
          == FromCloudFile(host, dir, ".symfony.cloud.yaml", "SymfonyCloud: ", yamlType, platform);
      content, foundDir := VersionForDir(host, dir, ".symfony.cloud.yaml");
      if content.Some? {
        var t := yamlType(content.value);
        if t.Some? && HasPrefix(t.value, "php:") {
          return Some(Need(t.value[4..], "SymfonyCloud: " + Join(foundDir, ".symfony.cloud.yaml")));
        }
      }
      content, foundDir := VersionForDir(host, dir, ".platform.app.yaml");
      if content.Some? {
        var t := yamlType(content.value);
        if t.Some? && HasPrefix(t.value, "php:") {
          return Some(Need(t.value[4..], "Platform.sh: " + Join(foundDir, ".platform.app.yaml")));
        }
      }
      return None;
    }

    /** The cache branch of loadVersions: admit the decoded records whose version
        parses, remember the last system one as the PATH default, then sort. */
    method LoadCachedVersions(decoded: seq<Version>)
      requires Valid()
      modifies this
      ensures Valid()
      ensures versions == SortByVersion(old(versions) + Admitted(decoded))
      ensures pathVersion == PathDefault(decoded, old(pathVersion))
      ensures seen == old(seen)
    {
      var kept, pv := AdmitCached(decoded, pathVersion);
      versions, pathVersion := versions + kept, pv;
      SortVersions();
    }

    /** sort.Sort on the store's versions, by version number. */
    method SortVersions()
      requires Valid()
      modifies this
      ensures Valid()
      ensures versions == SortByVersion(old(versions))
      ensures seen == old(seen) && pathVersion == old(pathVersion)
    {
      versions := SortByVersion(versions);
    }

    /** The store's fields that discover changes, as a value. */
    ghost function State(): StoreState
      reads this
    {
      StoreState(versions, seen, pathVersion)
    }

    /** The body of discover's inner loop: add a record found under PATH and, when no
        system version is set yet, make it the system one. */
    method AddFromPath(host: Host, v: Version)
      requires Valid()
      modifies this
      ensures Valid()
      ensures State() == Step(old(State()), host, v)
    {
      var idx := AddVersion(host, v);
      if pathVersion.None? {
        var marked := versions[idx].(isSystem := true);
        versions := versions[idx := marked];
        pathVersion := Some(marked);
      }
    }

    /** discover's inner loop: the records findFromDir returned for one PATH directory. */
    method AddAllFromPath(host: Host, found: seq<Version>)
      requires Valid()
      modifies this
      ensures Valid()
      ensures State() == DiscoverAll(old(State()), host, found)
    {
      ghost var s0 := State();
      var j := 0;
      while j < |found|
        invariant 0 <= j <= |found| && Valid()
        invariant State() == DiscoverAll(s0, host, found[..j])
      {
        AddFromPath(host, found[j]);
        assert found[..j + 1][..j] == found[..j];
        j := j + 1;
      }
      assert found[..j] == found;
    }

    /** discover, past the platform-specific roots: every installation found in the PATH
        directories is added, and the first becomes the system version. */
    method Discover(host: Host, path: string, user: string)
      requires Valid()
      modifies this
      ensures Valid()
      ensures State() == DiscoverAll(old(State()), host, PathRecords(host, configDir, path, user))
    {
      var dirs := PathDirectories(host, configDir, path, user);
      ghost var s0 := State();
      var i := 0;
      while i < |dirs|
        invariant 0 <= i <= |dirs| && Valid()
        invariant State() == DiscoverAll(s0, host, Records(host, dirs[..i]))
      {
        var found := FindFromDir(host, dirs[i], None, Discoverer(host));
        ghost var before := Records(host, dirs[..i]);
        RecordsStep(host, dirs, i);
        DiscoverAllSplit(s0, host, before, found);
        AddAllFromPath(host, found);
        i := i + 1;
      }
      assert dirs[..i] == dirs;
    }
  }
}
