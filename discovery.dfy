/**
 * The pure logic of the discovery code (discovery.go): reading PHP's version
 * numbers, parsing the `php-config` script, choosing how to probe an
 * installation, and cleaning up the PATH list. Every filesystem and process
 * call goes through the Host oracles.
 */
module Discovery {
  import opened Wrappers
  import opened Text
  import opened Paths
  import opened Machine
  import opened PhpVersion

  /* ---------------------------------------------------------------- validateVersion */

  /** The value of a decimal digit. */
  function Digit(c: char): nat
    requires IsDigit(c)
  {
    c as int - '0' as int
  }

  /** A five-character vernum `XYYZZ` written as "X.YY.ZZ". */
  function Dotted(v: string): string
    requires |v| == 5
  {
    [v[0]] + "." + v[1..3] + "." + v[3..5]
  }

  /** validateVersion: a vernum must have exactly five characters; it is then read
      as "X.YY.ZZ" by version.NewVersion. */
  function ValidateVersion(v: string): Option<Triple> {
    if |v| != 5 then None else ParseVersion(Dotted(v))
  }

  /** A vernum is accepted exactly when it is five digits, and then it reads as
      major X, minor YY and patch ZZ. */
  lemma ValidateVersionIsFiveDigits(v: string)
    ensures ValidateVersion(v).Some? <==> |v| == 5 && AllDigits(v)
    ensures |v| == 5 && AllDigits(v) ==>
      ValidateVersion(v) == Some(Triple(Digit(v[0]), 10 * Digit(v[1]) + Digit(v[2]), 10 * Digit(v[3]) + Digit(v[4])))
  {
    if |v| == 5 {
      var s := Dotted(v);
      if AllDigits(v) {
        var a, b, c := v[..1], v[1..3], v[3..5];
        assert s == a + "." + b + "." + c;
        assert AllDigits(a) && AllDigits(b) && AllDigits(c);
        ScanThree(a, b, c);
        assert a[..0] == [] && b[..1] == [b[0]] && c[..1] == [c[0]];
      } else {
        NoPrefixBeforeDot(s);
        if ParseVersion(s).Some? {
          ScanShape(s, 0, [], None);
          assert s[1] == '.' && s[4] == '.';
          assert forall k :: 0 <= k < 5 ==> IsDigit(v[k]) by {
            assert v[0] == s[0] && v[1] == s[2] && v[2] == s[3] && v[3] == s[5] && v[4] == s[6];
          }
        }
      }
    }
  }

  /* ---------------------------------------------------------------- normalizeVersion */

  /** Pads a one-digit component with a leading zero. */
  function Pad2(x: string): string {
    if |x| == 1 then "0" + x else x
  }

  /** normalizeVersion: "X.Y.Z" as printed by `php --version` becomes the vernum
      "XYYZZ". The Go code indexes the second and third components directly, so it
      needs at least two dots. */
  function NormalizeVersion(v: string): string
    requires |Split(v, '.')| >= 3
  {
    var parts := Split(v, '.');
    parts[0] + Pad2(parts[1]) + Pad2(parts[2])
  }

  /** Three dot-free components split back into those components. */
  lemma SplitThree(a: string, b: string, c: string)
    requires '.' !in a && '.' !in b && '.' !in c
    ensures Split(a + "." + b + "." + c, '.') == [a, b, c]
  {
    var parts := [a, b, c];
    assert JoinWith([c], '.') == c;
    assert JoinWith([b, c], '.') == b + "." + c by {
      assert [b, c][1..] == [c];
    }
    assert JoinWith(parts, '.') == a + "." + b + "." + c by {
      assert parts[1..] == [b, c];
    }
    SplitJoin(parts, '.');
  }

  lemma NoDotInDigits(x: string)
    requires AllDigits(x)
    ensures '.' !in x
  {
    forall k | 0 <= k < |x| ensures x[k] != '.' {
      assert IsDigit(x[k]);
    }
  }

  /** Normalizing "a.b.c" and validating the result gives back (a, b, c) exactly when
      the major version has one digit and the other two at most two; anything wider
      makes a vernum that is not five characters long. */
  lemma NormalizeThenValidate(a: string, b: string, c: string)
    requires a != "" && b != "" && c != ""
    requires AllDigits(a) && AllDigits(b) && AllDigits(c)
    ensures |Split(a + "." + b + "." + c, '.')| >= 3
    ensures ValidateVersion(NormalizeVersion(a + "." + b + "." + c))
         == if |a| == 1 && |b| <= 2 && |c| <= 2
            then Some(Triple(DecimalValue(a), DecimalValue(b), DecimalValue(c)))
            else None
  {
    NoDotInDigits(a);
    NoDotInDigits(b);
    NoDotInDigits(c);
    SplitThree(a, b, c);
    var n := NormalizeVersion(a + "." + b + "." + c);
    var pb, pc := Pad2(b), Pad2(c);
    assert n == a + pb + pc;
    if |a| == 1 && |b| <= 2 && |c| <= 2 {
      PaddedValue(b);
      PaddedValue(c);
      FiveDigitValues(a, pb, pc);
      ValidateFive(a + pb + pc, DecimalValue(a), DecimalValue(b), DecimalValue(c));
    } else {
      assert |pb| >= 2 && |pc| >= 2;
      assert |n| != 5;
      assert ValidateVersion(n) == None;
    }
  }

  lemma ValidateFive(n: string, x: nat, y: nat, z: nat)
    requires |n| == 5 && AllDigits(n)
    requires Digit(n[0]) == x && 10 * Digit(n[1]) + Digit(n[2]) == y && 10 * Digit(n[3]) + Digit(n[4]) == z
    ensures ValidateVersion(n) == Some(Triple(x, y, z))
  {
    ValidateVersionIsFiveDigits(n);
  }

  /** The vernum built from a one-digit and two two-digit components, digit by digit. */
  lemma FiveDigitValues(a: string, pb: string, pc: string)
    requires |a| == 1 && |pb| == 2 && |pc| == 2
    requires AllDigits(a) && AllDigits(pb) && AllDigits(pc)
    ensures var n := a + pb + pc;
      && |n| == 5 && AllDigits(n)
      && Digit(n[0]) == DecimalValue(a)
      && 10 * Digit(n[1]) + Digit(n[2]) == DecimalValue(pb)
      && 10 * Digit(n[3]) + Digit(n[4]) == DecimalValue(pc)
  {
    var n := a + pb + pc;
    FiveDigits(a, pb, pc);
    OneDigitValue(a);
    TwoDigitValue(pb);
    TwoDigitValue(pc);
    assert n[0] == a[0] && n[1] == pb[0] && n[2] == pb[1] && n[3] == pc[0] && n[4] == pc[1];
  }

  lemma OneDigitValue(x: string)
    requires |x| == 1 && AllDigits(x)
    ensures DecimalValue(x) == Digit(x[0])
  {
    assert x[..0] == [];
  }

  lemma FiveDigits(a: string, b: string, c: string)
    requires |a| == 1 && |b| == 2 && |c| == 2
    requires AllDigits(a) && AllDigits(b) && AllDigits(c)
    ensures |a + b + c| == 5 && AllDigits(a + b + c)
  {
    var n := a + b + c;
    forall k | 0 <= k < 5 ensures IsDigit(n[k]) {
      if k < 1 {
        assert n[k] == a[k];
      } else if k < 3 {
        assert n[k] == b[k - 1];
      } else {
        assert n[k] == c[k - 3];
      }
    }
  }

  /** Padding keeps the value of a one- or two-digit string and makes it two long. */
  lemma PaddedValue(x: string)
    requires x != "" && |x| <= 2 && AllDigits(x)
    ensures |Pad2(x)| == 2 && AllDigits(Pad2(x)) && DecimalValue(Pad2(x)) == DecimalValue(x)
  {
    if |x| == 1 {
      LeadingZero(x);
    }
  }

  lemma TwoDigitValue(x: string)
    requires |x| == 2 && AllDigits(x)
    ensures DecimalValue(x) == 10 * Digit(x[0]) + Digit(x[1])
  {
    OneDigitValue(x[..1]);
  }

  /** For a version go-version prints, normalizing then validating is the identity
      as long as it fits the five-digit vernum: one-digit major, two-digit minor and
      patch. */
  lemma NormalizeRoundTrip(t: Triple)
    ensures |Split(VersionString(t), '.')| >= 3
    ensures ValidateVersion(NormalizeVersion(VersionString(t)))
         == if t.major < 10 && t.minor < 100 && t.patch < 100 then Some(t) else None
  {
    NormalizeThenValidate(NatToString(t.major), NatToString(t.minor), NatToString(t.patch));
  }

  /* ---------------------------------------------------------------- bufio.ScanLines */

  /** A line without its trailing carriage return, if it has one. */
  function DropCR(line: string): string {
    if line != "" && line[|line| - 1] == '\r' then line[..|line| - 1] else line
  }

  /** The lines bufio.Scanner yields with ScanLines: the pieces between newlines, no
      empty last piece after a final newline, and a trailing '\r' dropped from each. */
  function Lines(contents: string): seq<string> {
    var parts := Split(contents, '\n');
    var kept := if parts[|parts| - 1] == "" then parts[..|parts| - 1] else parts;
    DropCRs(kept)
  }

  function DropCRs(ls: seq<string>): seq<string> {
    seq(|ls|, i requires 0 <= i < |ls| => DropCR(ls[i]))
  }

  /** Lines without a trailing carriage return are kept as they are. */
  lemma DropCRsKeeps(ls: seq<string>)
    requires forall k :: 0 <= k < |ls| ==> ls[k] == "" || ls[k][|ls[k]| - 1] != '\r'
    ensures DropCRs(ls) == ls
  {
    assert forall i :: 0 <= i < |ls| ==> DropCR(ls[i]) == ls[i];
  }

  /** A text made of the given lines, each ended by a newline. */
  function Terminated(ls: seq<string>): string {
    if ls == [] then "" else JoinWith(ls, '\n') + "\n"
  }

  lemma {:induction false} JoinWithEmptyLast(ls: seq<string>, sep: char)
    requires ls != []
    ensures JoinWith(ls + [""], sep) == JoinWith(ls, sep) + [sep]
    decreases |ls|
  {
    var parts := ls + [""];
    assert parts[1..] == ls[1..] + [""];
    if |ls| > 1 {
      JoinWithEmptyLast(ls[1..], sep);
    }
  }

  lemma SplitTerminated(ls: seq<string>)
    requires ls != [] && forall k :: 0 <= k < |ls| ==> '\n' !in ls[k]
    ensures Split(Terminated(ls), '\n') == ls + [""]
  {
    var parts := ls + [""];
    JoinWithEmptyLast(ls, '\n');
    assert forall k :: 0 <= k < |parts| ==> '\n' !in parts[k] by {
      assert forall k :: 0 <= k < |ls| ==> parts[k] == ls[k];
    }
    SplitJoin(parts, '\n');
  }

  /** Scanning a newline-terminated text gives back its lines. */
  lemma LinesOfTerminated(ls: seq<string>)
    requires forall k :: 0 <= k < |ls| ==> '\n' !in ls[k] && (ls[k] == "" || ls[k][|ls[k]| - 1] != '\r')
    ensures Lines(Terminated(ls)) == ls
  {
    if ls != [] {
      SplitTerminated(ls);
      assert (ls + [""])[..|ls|] == ls;
      DropCRsKeeps(ls);
    }
  }

  /* ---------------------------------------------------------------- php-config */

  const VernumKey := "vernum="
  const PrefixKey := "program_prefix="
  const SuffixKey := "program_suffix="
  const CgiKey := "    php_cgi_binary="
  const ExtKey := "exe_extension="

  /** What the scanner loop of discoverPHPViaPHPConfig has collected so far. */
  datatype ConfigState = ConfigState(
    full: Option<Triple>,   // FullVersion, from the last vernum= line
    prefix: string,         // programPrefix
    suffix: string,         // programSuffix
    cgiBinary: string,      // phpCgiBinary
    ext: string,            // programExtension
    allFound: nat)          // allFound

  const InitialConfig := ConfigState(None, "", "", "", "", 0)

  /** The value after a key, with every leading and trailing double quote removed. */
  function Value(line: string, key: string): string
    requires |key| <= |line|
  {
    Trim(line[|key|..], '"')
  }

  /** A vernum= line whose value does not validate: it aborts the whole scan. */
  predicate BadVernum(line: string) {
    HasPrefix(line, VernumKey) && ValidateVersion(Value(line, VernumKey)).None?
  }

  /** A line the else-if chain recognises. */
  predicate KnownKey(line: string) {
    HasPrefix(line, VernumKey) || HasPrefix(line, PrefixKey) || HasPrefix(line, SuffixKey)
    || HasPrefix(line, CgiKey) || HasPrefix(line, ExtKey)
  }

  /** One turn of the scanner loop: None when a vernum fails validation. */
  function ReadLine(st: ConfigState, line: string): Option<ConfigState> {
    if HasPrefix(line, VernumKey) then
      match ValidateVersion(Value(line, VernumKey))
      case None => None
      case Some(t) => Some(st.(full := Some(t), allFound := st.allFound + 1))
    else if HasPrefix(line, PrefixKey) then
      Some(st.(prefix := Value(line, PrefixKey), allFound := st.allFound + 1))
    else if HasPrefix(line, SuffixKey) then
      Some(st.(suffix := Value(line, SuffixKey), allFound := st.allFound + 1))
    else if HasPrefix(line, CgiKey) then
      Some(st.(cgiBinary := Value(line, CgiKey), allFound := st.allFound + 1))
    else if HasPrefix(line, ExtKey) then
      Some(st.(ext := Value(line, ExtKey), allFound := st.allFound + 1))
    else
      Some(st)
  }

  /** The whole scan, line by line from the first; a failed line ends it. */
  function ReadLines(lines: seq<string>): Option<ConfigState>
    decreases |lines|
  {
    if lines == [] then Some(InitialConfig)
    else
      match ReadLines(lines[..|lines| - 1])
      case None => None
      case Some(st) => ReadLine(st, lines[|lines| - 1])
  }

  /** The number of lines that start with one of the five keys. */
  function KeyCount(lines: seq<string>): nat
    decreases |lines|
  {
    if lines == [] then 0
    else KeyCount(lines[..|lines| - 1]) + (if KnownKey(lines[|lines| - 1]) then 1 else 0)
  }

  /** The value of the last line that starts with `key`, or "" when none does. */
  function LastValue(lines: seq<string>, key: string): string
    decreases |lines|
  {
    if lines == [] then ""
    else if HasPrefix(lines[|lines| - 1], key) then Value(lines[|lines| - 1], key)
    else LastValue(lines[..|lines| - 1], key)
  }

  /** The version of the last vernum= line, or None when there is none (or it does not validate). */
  function LastVernum(lines: seq<string>): Option<Triple>
    decreases |lines|
  {
    if lines == [] then None
    else if HasPrefix(lines[|lines| - 1], VernumKey) then ValidateVersion(Value(lines[|lines| - 1], VernumKey))
    else LastVernum(lines[..|lines| - 1])
  }

  /** No line starts with two of the keys, so the else-if chain never hides a key. */
  lemma KeysExclusive(line: string)
    ensures HasPrefix(line, VernumKey) ==> !HasPrefix(line, PrefixKey) && !HasPrefix(line, SuffixKey)
                                           && !HasPrefix(line, CgiKey) && !HasPrefix(line, ExtKey)
    ensures HasPrefix(line, PrefixKey) ==> !HasPrefix(line, SuffixKey) && !HasPrefix(line, CgiKey)
                                           && !HasPrefix(line, ExtKey)
    ensures HasPrefix(line, SuffixKey) ==> !HasPrefix(line, CgiKey) && !HasPrefix(line, ExtKey)
    ensures HasPrefix(line, CgiKey) ==> !HasPrefix(line, ExtKey)
  {
    if HasPrefix(line, PrefixKey) {
      assert line[8] == PrefixKey[8];
    }
    if line != [] {
      assert HasPrefix(line, VernumKey) ==> line[0] == 'v';
      assert HasPrefix(line, PrefixKey) ==> line[0] == 'p';
      assert HasPrefix(line, SuffixKey) ==> line[0] == 'p' && line[8] == 's';
      assert HasPrefix(line, CgiKey) ==> line[0] == ' ';
      assert HasPrefix(line, ExtKey) ==> line[0] == 'e';
    }
  }

  /** The scan fails exactly when some vernum= line does not validate. */
  lemma {:induction false} ReadLinesFails(lines: seq<string>)
    ensures ReadLines(lines).None? <==> exists i :: 0 <= i < |lines| && BadVernum(lines[i])
    decreases |lines|
  {
    if lines != [] {
      var init, last := lines[..|lines| - 1], lines[|lines| - 1];
      ReadLinesFails(init);
      assert forall i :: 0 <= i < |init| ==> init[i] == lines[i];
      if ReadLines(init).Some? {
        assert ReadLines(lines).None? <==> BadVernum(last);
      }
    }
  }

  /** Once a prefix of the lines has failed, the whole scan has. */
  lemma NoneAbsorbs(lines: seq<string>, n: nat)
    requires n <= |lines| && ReadLines(lines[..n]).None?
    ensures ReadLines(lines).None?
  {
    ReadLinesFails(lines[..n]);
    ReadLinesFails(lines);
    var i :| 0 <= i < n && BadVernum(lines[..n][i]);
    assert lines[i] == lines[..n][i];
  }

  /** A successful scan counts one for every line that starts with a key, and holds,
      for every key, the value of the last line that starts with it. */
  lemma {:induction false} ReadLinesTracks(lines: seq<string>)
    requires ReadLines(lines).Some?
    ensures var st := ReadLines(lines).value;
      && st.allFound == KeyCount(lines)
      && st.full == LastVernum(lines)
      && st.prefix == LastValue(lines, PrefixKey)
      && st.suffix == LastValue(lines, SuffixKey)
      && st.cgiBinary == LastValue(lines, CgiKey)
      && st.ext == LastValue(lines, ExtKey)
    decreases |lines|
  {
    if lines != [] {
      var init, last := lines[..|lines| - 1], lines[|lines| - 1];
      ReadLinesTracks(init);
      KeysExclusive(last);
    }
  }

  /** With every vernum valid, the scan has a version exactly when some line is a vernum. */
  lemma {:induction false} LastVernumFound(lines: seq<string>)
    requires forall i :: 0 <= i < |lines| ==> !BadVernum(lines[i])
    ensures LastVernum(lines).Some? <==> exists i :: 0 <= i < |lines| && HasPrefix(lines[i], VernumKey)
    decreases |lines|
  {
    if lines != [] {
      var init := lines[..|lines| - 1];
      assert forall i :: 0 <= i < |init| ==> init[i] == lines[i];
      LastVernumFound(init);
      if !HasPrefix(lines[|lines| - 1], VernumKey) {
        assert (exists i :: 0 <= i < |lines| && HasPrefix(lines[i], VernumKey))
           ==> exists i :: 0 <= i < |init| && HasPrefix(init[i], VernumKey);
      }
    }
  }

  /** The scanner loop of discoverPHPViaPHPConfig over the lines of php-config. */
  method ScanPhpConfig(lines: seq<string>) returns (r: Option<ConfigState>)
    ensures r == ReadLines(lines)
  {
    var full: Option<Triple> := None;
    var prefix, suffix, cgiBinary, ext := "", "", "", "";
    var allFound := 0;
    var i := 0;
    while i < |lines|
      invariant i <= |lines|
      invariant ReadLines(lines[..i]) == Some(ConfigState(full, prefix, suffix, cgiBinary, ext, allFound))
    {
      var line := lines[i];
      assert lines[..i + 1][..i] == lines[..i];
      assert ReadLines(lines[..i + 1]) == ReadLine(ConfigState(full, prefix, suffix, cgiBinary, ext, allFound), line);
      if HasPrefix(line, VernumKey) {
        var v := ValidateVersion(Value(line, VernumKey));
        if v.None? {
          NoneAbsorbs(lines, i + 1);
          return None;
        }
        full := v;
        allFound := allFound + 1;
      } else if HasPrefix(line, PrefixKey) {
        prefix := Value(line, PrefixKey);
        allFound := allFound + 1;
      } else if HasPrefix(line, SuffixKey) {
        suffix := Value(line, SuffixKey);
        allFound := allFound + 1;
      } else if HasPrefix(line, CgiKey) {
        cgiBinary := Value(line, CgiKey);
        allFound := allFound + 1;
      } else if HasPrefix(line, ExtKey) {
        ext := Value(line, ExtKey);
        allFound := allFound + 1;
      }
      i := i + 1;
    }
    assert lines[..i] == lines;
    r := Some(ConfigState(full, prefix, suffix, cgiBinary, ext, allFound));
  }

  const ExecPrefixVar := "${exec_prefix}/"
  const PrefixVar := "${program_prefix}"
  const SuffixVar := "${program_suffix}"
  const ExtVar := "${exe_extension}"

  /** The file name of one tool: `<prefix><tool><suffix><ext>`. */
  function ToolName(st: ConfigState, tool: string): string {
    st.prefix + tool + st.suffix + st.ext
  }

  /** The CGI binary name: built from the prefix, suffix and extension when php-config
      gives no template; otherwise the template with each placeholder filled in at its
      first occurrence and the `${exec_prefix}/` and first `bin/` removed. */
  function CgiName(st: ConfigState): string {
    if st.cgiBinary == "" then st.prefix + "php" + st.suffix + "-cgi" + st.ext
    else
      var t1 := ReplaceFirst(st.cgiBinary, PrefixVar, st.prefix);
      var t2 := ReplaceFirst(t1, SuffixVar, st.suffix);
      var t3 := ReplaceFirst(t2, ExtVar, st.ext);
      var t4 := ReplaceFirst(t3, ExecPrefixVar, "");
      ReplaceFirst(t4, "bin/", "")
  }

  /** dir/bin/<binName with "php" replaced by "php-config"> */
  function PhpConfigPath(dir: string, binName: string): string {
    Join(Join(dir, "bin"), ReplaceFirst(binName, "php", "php-config"))
  }

  /** The record discoverPHPViaPHPConfig builds from a complete scan. */
  function ConfigRecord(host: Host, dir: string, st: ConfigState): Version
    requires st.full.Some?
  {
    var bin := Join(dir, "bin");
    var v := NewRecord(st.full.value, dir, Join(bin, ToolName(st, "php")));
    WithTools(host, v, Join(Join(dir, "sbin"), ToolName(st, "php-fpm")), Join(bin, CgiName(st)),
              Join(bin, ToolName(st, "php-config")), Join(bin, ToolName(st, "phpize")),
              Join(bin, ToolName(st, "phpdbg")))
  }

  /** discoverPHPViaPHPConfig, as a value: read php-config, scan it, and build the record
      only when a version was found and exactly five key lines matched. */
  function ConfigDiscovery(host: Host, dir: string, binName: string): Option<Version> {
    match host.readFile(PhpConfigPath(dir, binName))
    case None => None
    case Some(contents) =>
      match ReadLines(Lines(contents))
      case None => None
      case Some(st) =>
        if st.full.None? || st.allFound != 5 then None else Some(ConfigRecord(host, dir, st))
  }

  /** discoverPHPViaPHPConfig */
  method ViaPHPConfig(host: Host, dir: string, binName: string) returns (r: Option<Version>)
    ensures r == ConfigDiscovery(host, dir, binName)
  {
    var phpConfig := PhpConfigPath(dir, binName);
    var file := host.readFile(phpConfig);
    if file.None? {
      return None;
    }
    var st := ScanPhpConfig(Lines(file.value));
    if st.None? || st.value.full.None? || st.value.allFound != 5 {
      return None;
    }
    var cfg := st.value;
    var cgiBinary := CgiName(cfg);
    var bin := Join(dir, "bin");
    var version := NewRecord(cfg.full.value, dir, Join(bin, ToolName(cfg, "php")));
    var fpm, cgi := Join(Join(dir, "sbin"), ToolName(cfg, "php-fpm")), Join(bin, cgiBinary);
    var phpconfig, phpize := Join(bin, ToolName(cfg, "php-config")), Join(bin, ToolName(cfg, "phpize"));
    var phpdbg := Join(bin, ToolName(cfg, "phpdbg"));
    var probed, msg := SetServer(host, version, fpm, cgi, phpconfig, phpize, phpdbg);
    r := Some(probed);
  }

  /** What the php-config strategy yields, in terms of the lines of the file: nothing
      when the file cannot be read or a vernum is bad; otherwise a record exactly when
      some line is a vernum and five lines start with a key, built from the last value
      of each key. */
  lemma ConfigDiscoveryResult(host: Host, dir: string, binName: string)
    ensures host.readFile(PhpConfigPath(dir, binName)).None? ==> ConfigDiscovery(host, dir, binName).None?
    ensures host.readFile(PhpConfigPath(dir, binName)).Some? ==>
      var lines := Lines(host.readFile(PhpConfigPath(dir, binName)).value);
      && (ConfigDiscovery(host, dir, binName).Some? <==>
            && (forall i :: 0 <= i < |lines| ==> !BadVernum(lines[i]))
            && (exists i :: 0 <= i < |lines| && HasPrefix(lines[i], VernumKey))
            && KeyCount(lines) == 5)
      && (ConfigDiscovery(host, dir, binName).Some? ==>
            var v := ConfigDiscovery(host, dir, binName).value;
            && Some(v.full) == LastVernum(lines)
            && v.version == VersionString(v.full)
            && v.path == dir && !v.isSystem
            && v.phpPath == Join(Join(dir, "bin"), LastValue(lines, PrefixKey) + "php"
                                   + LastValue(lines, SuffixKey) + LastValue(lines, ExtKey)))
  {
    var file := host.readFile(PhpConfigPath(dir, binName));
    if file.Some? {
      var lines := Lines(file.value);
      ReadLinesFails(lines);
      if ReadLines(lines).Some? {
        ReadLinesTracks(lines);
        LastVernumFound(lines);
      }
    }
  }

  /** The template php-config usually gives for the CGI binary. */
  const CgiTemplate := ExecPrefixVar + "bin/" + PrefixVar + "php" + SuffixVar + "-cgi" + ExtVar

  /** The placeholders start with '$', and only the first character of `${exec_prefix}/` is a '$'. */
  lemma Placeholders()
    ensures PrefixVar[0] == '$' && SuffixVar[0] == '$' && ExtVar[0] == '$'
    ensures ExecPrefixVar[0] == '$' && '$' !in ExecPrefixVar[1..]
    ensures ExecPrefixVar[2] != PrefixVar[2] && ExecPrefixVar[2] != SuffixVar[2] && ExecPrefixVar[5] != ExtVar[5]
  {
    assert ExecPrefixVar[1..] == "{exec_prefix}/";
  }

  /** `pat` does not occur at `j` when one of its characters differs from the text there. */
  lemma MismatchAt(s: string, pat: string, j: nat, k: nat)
    requires k < |pat| && j + k < |s| && s[j + k] != pat[k]
    ensures !OccursAt(s, pat, j)
  {
    if j + |pat| <= |s| {
      assert s[j..j + |pat|][k] == s[j + k];
    }
  }

  /** A placeholder is replaced where it stands when no '$' comes before it except the
      first character of `a`, and `a` differs from it at position `k`. */
  lemma ReplaceFirstAfter(a: string, b: string, pat: string, rep: string, y: string, k: nat)
    requires k < |pat| && pat[0] == '$'
    requires k < |a| && a[0] == '$' && '$' !in a[1..] && a[k] != pat[k] && '$' !in b
    ensures ReplaceFirst(a + b + pat + y, pat, rep) == a + b + rep + y
  {
    var s := a + b + pat + y;
    var i := |a| + |b|;
    assert s[i..i + |pat|] == pat;
    forall j: nat | j < i ensures !OccursAt(s, pat, j) {
      if j == 0 {
        assert s[k] == a[k];
        MismatchAt(s, pat, 0, k);
      } else {
        if j < |a| {
          assert s[j] == a[1..][j - 1];
        } else {
          assert s[j] == b[j - |a|];
        }
        MismatchAt(s, pat, j, 0);
      }
    }
    assert s[..i] == a + b && s[i + |pat|..] == y;
    ReplaceFirstIsFirst(s, pat, rep);
  }

  lemma Regroup2(a: string, b: string, p: string, h: string, x: string, i: string, e: string)
    ensures a + b + p + (h + x + i + e) == a + (b + p + h) + x + (i + e)
  {
  }

  lemma Regroup3(a: string, b: string, q: string, i: string, x: string)
    ensures a + b + q + (i + x) == a + (b + q + i) + x + ""
  {
  }

  lemma Regroup4(a: string, b: string, p: string, h: string, q: string, i: string, e: string)
    ensures a + (b + p + h + q + i) + e + "" == a + (b + (p + h + q + i + e))
  {
  }

  /** `pat` at the very start is the first occurrence, and removing it leaves the rest. */
  lemma RemoveAtStart(pat: string, y: string)
    ensures ReplaceFirst(pat + y, pat, "") == y
  {
    var s := pat + y;
    assert s[..|pat|] == pat;
    assert OccursAt(s, pat, 0);
    assert s[|pat|..] == y;
    ReplaceFirstIsFirst(s, pat, "");
    assert s[..0] + "" + s[|pat|..] == y;
  }

  /** The usual template names the same binary as the default, when the prefix, suffix
      and extension hold no '$'. */
  lemma CgiNameOfTemplate(st: ConfigState)
    requires st.cgiBinary == CgiTemplate
    requires '$' !in st.prefix && '$' !in st.suffix && '$' !in st.ext
    ensures CgiName(st) == st.prefix + "php" + st.suffix + "-cgi" + st.ext
  {
    var p, q, e := st.prefix, st.suffix, st.ext;
    var a := ExecPrefixVar;
    Placeholders();
    var b1, y1 := "bin/", "php" + SuffixVar + "-cgi" + ExtVar;
    assert st.cgiBinary == a + b1 + PrefixVar + y1;
    ReplaceFirstAfter(a, b1, PrefixVar, p, y1, 2);
    var t1 := ReplaceFirst(st.cgiBinary, PrefixVar, p);
    var b2, y2 := b1 + p + "php", "-cgi" + ExtVar;
    Regroup2(a, b1, p, "php", SuffixVar, "-cgi", ExtVar);
    assert t1 == a + b2 + SuffixVar + y2;
    ReplaceFirstAfter(a, b2, SuffixVar, q, y2, 2);
    var t2 := ReplaceFirst(t1, SuffixVar, q);
    var b3 := b2 + q + "-cgi";
    Regroup3(a, b2, q, "-cgi", ExtVar);
    assert t2 == a + b3 + ExtVar + "";
    ReplaceFirstAfter(a, b3, ExtVar, e, "", 5);
    var t3 := ReplaceFirst(t2, ExtVar, e);
    var rest := p + "php" + q + "-cgi" + e;
    Regroup4(a, "bin/", p, "php", q, "-cgi", e);
    assert t3 == a + ("bin/" + rest);
    RemoveAtStart(a, "bin/" + rest);
    var t4 := ReplaceFirst(t3, a, "");
    assert t4 == "bin/" + rest;
    RemoveAtStart("bin/", rest);
    assert CgiName(st) == ReplaceFirst(t4, "bin/", "");
  }

  /* ---------------------------------------------------------------- the php --version banner */

  /** The length of the run of ASCII digits `t` starts with. */
  function DigitPrefix(t: string): (n: nat)
    ensures n <= |t|
  {
    if t != [] && IsDigit(t[0]) then 1 + DigitPrefix(t[1..]) else 0
  }

  /** The leading run is all digits and stops at the end or at a non-digit. */
  lemma {:induction false} DigitPrefixIsMaximal(t: string)
    ensures AllDigits(t[..DigitPrefix(t)])
    ensures DigitPrefix(t) == |t| || !IsDigit(t[DigitPrefix(t)])
  {
    if t != [] && IsDigit(t[0]) {
      DigitPrefixIsMaximal(t[1..]);
      assert t[..DigitPrefix(t)] == [t[0]] + t[1..][..DigitPrefix(t[1..])];
    }
  }

  /** Digits followed by the end or by a non-digit make a run of their own length. */
  lemma {:induction false} DigitPrefixOf(d: string, y: string)
    requires AllDigits(d) && (y == "" || !IsDigit(y[0]))
    ensures DigitPrefix(d + y) == |d|
  {
    if d != [] {
      assert (d + y)[1..] == d[1..] + y;
      DigitPrefixOf(d[1..], y);
    } else {
      assert d + y == y;
    }
  }

  /** A digit run followed by a dot, taken off the front of `t`: the digits and what
      follows the dot. */
  function DotRun(t: string): Option<(string, string)> {
    var n := DigitPrefix(t);
    if n == 0 || n == |t| || t[n] != '.' then None else Some((t[..n], t[n + 1..]))
  }

  /** The submatch of `PHP (\d+\.\d+\.\d+)` given the text `t` after "PHP ": each
      `\d+` takes the whole digit run, since a digit never matches the `.` after it. */
  function MatchAfter(t: string): Option<string> {
    match DotRun(t)
    case None => None
    case Some((x, t2)) =>
      match DotRun(t2)
      case None => None
      case Some((y, t3)) =>
        var n := DigitPrefix(t3);
        if n == 0 then None else Some(x + "." + y + "." + t3[..n])
  }

  /** What DotRun takes is a non-empty digit string. */
  lemma DotRunShape(t: string)
    requires DotRun(t).Some?
    ensures DotRun(t).value.0 != "" && AllDigits(DotRun(t).value.0)
  {
    DigitPrefixIsMaximal(t);
  }

  /** Digits, a dot and a remainder are taken apart by DotRun. */
  lemma DotRunOf(x: string, r: string)
    requires x != "" && AllDigits(x)
    ensures DotRun(x + ("." + r)) == Some((x, r))
  {
    var t := x + ("." + r);
    DigitPrefixOf(x, "." + r);
    assert t[|x|] == '.';
    assert t[..|x|] == x;
    assert t[|x| + 1..] == r;
  }

  /** The submatch when the match starts at `i`. */
  function MatchAt(s: string, i: nat): Option<string> {
    if OccursAt(s, "PHP ", i) then MatchAfter(s[i + 4..]) else None
  }

  /** The leftmost match at or after `i`. */
  function BannerFrom(s: string, i: nat): Option<string>
    decreases |s| - i
  {
    if |s| < i + 4 then None
    else
      var m := MatchAt(s, i);
      if m.Some? then m else BannerFrom(s, i + 1)
  }

  /** FindSubmatch of `PHP (\d+\.\d+\.\d+)` on the output of `php --version`: the version it names. */
  function Banner(s: string): Option<string> {
    BannerFrom(s, 0)
  }

  /** A match is three non-empty digit runs joined by dots. */
  lemma MatchAfterShape(t: string)
    requires MatchAfter(t).Some?
    ensures var parts := Split(MatchAfter(t).value, '.');
      |parts| == 3 && forall k :: 0 <= k < 3 ==> parts[k] != "" && AllDigits(parts[k])
  {
    DotRunShape(t);
    var (x, t2) := DotRun(t).value;
    DotRunShape(t2);
    var (y, t3) := DotRun(t2).value;
    DigitPrefixIsMaximal(t3);
    var z := t3[..DigitPrefix(t3)];
    NoDotInDigits(x);
    NoDotInDigits(y);
    NoDotInDigits(z);
    SplitThree(x, y, z);
  }

  /** "x.y.z" followed by a non-digit is matched as "x.y.z". */
  lemma MatchAfterOf(x: string, y: string, z: string, rest: string)
    requires x != "" && y != "" && z != "" && AllDigits(x) && AllDigits(y) && AllDigits(z)
    requires rest == "" || !IsDigit(rest[0])
    ensures MatchAfter(x + "." + y + "." + z + rest) == Some(x + "." + y + "." + z)
  {
    var t3 := z + rest;
    var t2 := y + ("." + t3);
    var t := x + ("." + t2);
    Regroup5(x, y, z, rest);
    DotRunOf(x, t2);
    DotRunOf(y, t3);
    DigitPrefixOf(z, rest);
    assert t3[..|z|] == z;
  }

  /** The grouping of "x.y.z" + rest that MatchAfter takes apart. */
  lemma Regroup5(x: string, y: string, z: string, rest: string)
    ensures x + "." + y + "." + z + rest == x + ("." + (y + ("." + (z + rest))))
  {
  }

  /** No match starts within the last three characters. */
  lemma NoMatchNearEnd(s: string, j: nat)
    requires |s| < j + 4
    ensures MatchAt(s, j).None?
  {
  }

  /** The banner, when there is one, is a match found at some position and none earlier. */
  lemma {:induction false} BannerFromIsLeftmost(s: string, i: nat)
    requires BannerFrom(s, i).Some?
    ensures exists k :: i <= k && MatchAt(s, k) == BannerFrom(s, i)
                        && forall j :: i <= j < k ==> MatchAt(s, j).None?
    decreases |s| - i
  {
    if MatchAt(s, i).None? {
      assert BannerFrom(s, i) == BannerFrom(s, i + 1);
      BannerFromIsLeftmost(s, i + 1);
      var k :| i + 1 <= k && MatchAt(s, k) == BannerFrom(s, i + 1)
               && forall j :: i + 1 <= j < k ==> MatchAt(s, j).None?;
      assert forall j :: i <= j < k ==> MatchAt(s, j).None?;
      assert i <= k && MatchAt(s, k) == BannerFrom(s, i);
    } else {
      assert MatchAt(s, i) == BannerFrom(s, i);
    }
  }

  /** When there is no banner, no position holds a match. */
  lemma {:induction false} BannerFromNone(s: string, i: nat)
    requires BannerFrom(s, i).None?
    ensures forall j :: i <= j ==> MatchAt(s, j).None?
    decreases |s| - i
  {
    if |s| < i + 4 {
      forall j | i <= j ensures MatchAt(s, j).None? {
        NoMatchNearEnd(s, j);
      }
    } else {
      BannerFromNone(s, i + 1);
    }
  }

  /** A banner splits into exactly three non-empty digit strings, so normalizeVersion may
      index its second and third components. */
  lemma BannerShape(s: string)
    requires Banner(s).Some?
    ensures var parts := Split(Banner(s).value, '.');
      |parts| == 3 && forall k :: 0 <= k < 3 ==> parts[k] != "" && AllDigits(parts[k])
  {
    BannerFromIsLeftmost(s, 0);
    var k :| MatchAt(s, k) == Banner(s);
    MatchAfterShape(s[k + 4..]);
  }

  /** "PHP x.y.z" at the start of the output is the banner. */
  lemma BannerOfParts(x: string, y: string, z: string, rest: string)
    requires x != "" && y != "" && z != "" && AllDigits(x) && AllDigits(y) && AllDigits(z)
    requires rest == "" || !IsDigit(rest[0])
    ensures Banner("PHP " + x + "." + y + "." + z + rest) == Some(x + "." + y + "." + z)
  {
    var t := x + "." + y + "." + z + rest;
    var s := "PHP " + t;
    assert "PHP " + x + "." + y + "." + z + rest == s;
    assert s[..4] == "PHP " && s[4..] == t;
    MatchAfterOf(x, y, z, rest);
    assert MatchAt(s, 0) == Some(x + "." + y + "." + z);
  }

  /** `php --version` output that starts with "PHP X.Y.Z" names X.Y.Z. */
  lemma BannerOfVersion(t: Triple, rest: string)
    requires rest == "" || !IsDigit(rest[0])
    ensures Banner("PHP " + VersionString(t) + rest) == Some(VersionString(t))
  {
    var x, y, z := NatToString(t.major), NatToString(t.minor), NatToString(t.patch);
    assert "PHP " + VersionString(t) + rest == "PHP " + x + "." + y + "." + z + rest;
    BannerOfParts(x, y, z, rest);
  }

  /** A three-part join spelled out. */
  lemma JoinThree(parts: seq<string>)
    requires |parts| == 3
    ensures JoinWith(parts, '.') == parts[0] + "." + parts[1] + "." + parts[2]
  {
    var tail := parts[1..];
    assert tail[1..] == [parts[2]];
    assert JoinWith(tail, '.') == parts[1] + "." + parts[2];
    assert JoinWith(parts, '.') == parts[0] + "." + JoinWith(tail, '.');
  }

  /** The version "a.b.c" names as a vernum would hold it: three non-empty digit strings,
      a one-digit major and a minor and patch of at most two digits, read as numbers. */
  function BannerTriple(b: string): Option<Triple> {
    var parts := Split(b, '.');
    if |parts| == 3 && parts[0] != "" && parts[1] != "" && parts[2] != ""
       && AllDigits(parts[0]) && AllDigits(parts[1]) && AllDigits(parts[2])
       && |parts[0]| == 1 && |parts[1]| <= 2 && |parts[2]| <= 2
    then Some(Triple(DecimalValue(parts[0]), DecimalValue(parts[1]), DecimalValue(parts[2])))
    else None
  }

  /** Normalizing a banner and validating the vernum reads exactly the version it names. */
  lemma BannerVersion(s: string)
    requires Banner(s).Some?
    ensures |Split(Banner(s).value, '.')| >= 3
    ensures ValidateVersion(NormalizeVersion(Banner(s).value)) == BannerTriple(Banner(s).value)
  {
    var b := Banner(s).value;
    BannerShape(s);
    var parts := Split(b, '.');
    SplitPieces(b, '.');
    JoinThree(parts);
    NormalizeThenValidate(parts[0], parts[1], parts[2]);
  }

  /* ---------------------------------------------------------------- discoverPHPViaPHP */

  /** The binary's file name: ".exe" is appended on Windows. */
  function BinaryName(host: Host, binName: string): string {
    if host.isWindows then binName + ".exe" else binName
  }

  /** Where the binary and its tools live: `dir` on Windows, `dir/bin` elsewhere. */
  function ToolDir(host: Host, dir: string): string {
    if host.isWindows then dir else Join(dir, "bin")
  }

  /** The binary discoverPHPViaPHP runs. */
  function BinaryPath(host: Host, dir: string, binName: string): string {
    Join(ToolDir(host, dir), BinaryName(host, binName))
  }

  /** A tool next to the binary: its name with the first "php" replaced by the tool's. */
  function ToolPath(host: Host, dir: string, name: string, tool: string): string {
    Join(ToolDir(host, dir), ReplaceFirst(name, "php", tool))
  }

  /** php-fpm: in `dir/sbin` when it exists there, in `dir/bin` otherwise; in `dir` on Windows. */
  function FpmPath(host: Host, dir: string, name: string): string {
    var fpm := ReplaceFirst(name, "php", "php-fpm");
    if host.isWindows then Join(dir, fpm)
    else if host.stat(Join(Join(dir, "sbin"), fpm)) then Join(Join(dir, "sbin"), fpm)
    else Join(Join(dir, "bin"), fpm)
  }

  /** The record discoverPHPViaPHP builds for the version `t` of the binary resolving to `resolved`. */
  function BinaryRecord(host: Host, dir: string, name: string, t: Triple, resolved: string): Version {
    WithTools(host, NewRecord(t, dir, resolved), FpmPath(host, dir, name),
              ToolPath(host, dir, name, "php-cgi"), ToolPath(host, dir, name, "php-config"),
              ToolPath(host, dir, name, "phpize"), ToolPath(host, dir, name, "phpdbg"))
  }

  /** discoverPHPViaPHP, as a value: the binary must exist, run, print a banner and
      resolve, and the banner must normalize to a valid vernum. */
  function BinaryDiscovery(host: Host, dir: string, binName: string): Option<Version> {
    var php := BinaryPath(host, dir, binName);
    if !host.stat(php) then None
    else
      match host.versionOutput(php)
      case None => None
      case Some(out) =>
        match Banner(out)
        case None => None
        case Some(b) =>
          match host.resolve(php)
          case None => None
          case Some(resolved) =>
            BannerShape(out);
            match ValidateVersion(NormalizeVersion(b))
            case None => None
            case Some(t) => Some(BinaryRecord(host, dir, BinaryName(host, binName), t, resolved))
  }

  /** discoverPHPViaPHP */
  method ViaPHP(host: Host, dir: string, binName: string) returns (r: Option<Version>)
    ensures r == BinaryDiscovery(host, dir, binName)
  {
    var name := binName;
    var php := Join(Join(dir, "bin"), binName);
    if host.isWindows {
      name := name + ".exe";
      php := Join(dir, name);
    }
    if !host.stat(php) {
      return None;
    }
    var out := host.versionOutput(php);
    if out.None? {
      return None;
    }
    var data := Banner(out.value);
    if data.None? {
      return None;
    }
    var resolved := host.resolve(php);
    if resolved.None? {
      return None;
    }
    BannerShape(out.value);
    var v := ValidateVersion(NormalizeVersion(data.value));
    if v.None? {
      return None;
    }
    var version := NewRecord(v.value, dir, resolved.value);
    var fpm := Join(Join(dir, "sbin"), ReplaceFirst(name, "php", "php-fpm"));
    if !host.stat(fpm) {
      fpm := Join(Join(dir, "bin"), ReplaceFirst(name, "php", "php-fpm"));
    }
    var cgi := Join(Join(dir, "bin"), ReplaceFirst(name, "php", "php-cgi"));
    var phpconfig := Join(Join(dir, "bin"), ReplaceFirst(name, "php", "php-config"));
    var phpize := Join(Join(dir, "bin"), ReplaceFirst(name, "php", "phpize"));
    var phpdbg := Join(Join(dir, "bin"), ReplaceFirst(name, "php", "phpdbg"));
    if host.isWindows {
      fpm := Join(dir, ReplaceFirst(name, "php", "php-fpm"));
      cgi := Join(dir, ReplaceFirst(name, "php", "php-cgi"));
      phpconfig := Join(dir, ReplaceFirst(name, "php", "php-config"));
      phpize := Join(dir, ReplaceFirst(name, "php", "phpize"));
      phpdbg := Join(dir, ReplaceFirst(name, "php", "phpdbg"));
    }
    var probed, msg := SetServer(host, version, fpm, cgi, phpconfig, phpize, phpdbg);
    r := Some(probed);
  }

  /** The binary strategy yields a record only when the binary exists, runs, prints a
      banner and resolves. */
  lemma BinaryDiscoveryNeeds(host: Host, dir: string, binName: string)
    ensures var php := BinaryPath(host, dir, binName);
      BinaryDiscovery(host, dir, binName).Some? ==>
        && host.stat(php) && host.versionOutput(php).Some?
        && Banner(host.versionOutput(php).value).Some? && host.resolve(php).Some?
  {
  }

  /** Once the binary exists, runs, prints a banner and resolves, the binary strategy
      yields a record exactly when the banner names a version a vernum can hold, and the
      record holds that version, the directory and the resolved binary. */
  lemma BinaryDiscoveryResult(host: Host, dir: string, binName: string)
    ensures var php := BinaryPath(host, dir, binName);
      host.stat(php) && host.versionOutput(php).Some? && host.resolve(php).Some?
        && Banner(host.versionOutput(php).value).Some? ==>
      var named := BannerTriple(Banner(host.versionOutput(php).value).value);
      && (BinaryDiscovery(host, dir, binName).Some? <==> named.Some?)
      && (BinaryDiscovery(host, dir, binName).Some? ==>
            var v := BinaryDiscovery(host, dir, binName).value;
            && v.full == named.value && v.version == VersionString(v.full)
            && v.path == dir && v.phpPath == host.resolve(php).value
            && !v.isSystem && !v.frankenPHP)
  {
    var php := BinaryPath(host, dir, binName);
    if host.stat(php) && host.versionOutput(php).Some? && host.resolve(php).Some?
       && Banner(host.versionOutput(php).value).Some? {
      BannerVersion(host.versionOutput(php).value);
    }
  }

  /** A binary printing "PHP " and a version go-version would print is recorded with that
      version exactly when it fits a vernum. */
  lemma BinaryOfVersion(host: Host, dir: string, binName: string, t: Triple, rest: string)
    requires rest == "" || !IsDigit(rest[0])
    requires var php := BinaryPath(host, dir, binName);
      host.stat(php) && host.resolve(php).Some?
      && host.versionOutput(php) == Some("PHP " + VersionString(t) + rest)
    ensures BinaryDiscovery(host, dir, binName).Some? <==> t.major < 10 && t.minor < 100 && t.patch < 100
    ensures BinaryDiscovery(host, dir, binName).Some? ==>
      BinaryDiscovery(host, dir, binName).value.full == t
  {
    BannerOfVersion(t, rest);
    NormalizeRoundTrip(t);
  }

  /* ---------------------------------------------------------------- discoverPHP */

  /** A version a five-digit vernum can hold. */
  predicate FitsVernum(t: Triple) {
    t.major < 10 && t.minor < 100 && t.patch < 100
  }

  /** Whatever validateVersion accepts fits a vernum. */
  lemma ValidateVersionFits(v: string)
    requires ValidateVersion(v).Some?
    ensures FitsVernum(ValidateVersion(v).value)
  {
    ValidateVersionIsFiveDigits(v);
  }

  /** The last vernum of a php-config file, when it validates, fits a vernum. */
  lemma {:induction false} LastVernumFits(lines: seq<string>)
    requires LastVernum(lines).Some?
    ensures FitsVernum(LastVernum(lines).value)
    decreases |lines|
  {
    var last := lines[|lines| - 1];
    if HasPrefix(last, VernumKey) {
      ValidateVersionFits(Value(last, VernumKey));
    } else {
      LastVernumFits(lines[..|lines| - 1]);
    }
  }

  /** php-config is a symbolic link that can be read and points into an alternatives
      directory, as Debian's update-alternatives sets it up. */
  predicate ViaAlternatives(host: Host, p: string) {
    host.lstat(p) == Some(true) && host.readlink(p).Some?
    && Contains(host.readlink(p).value, "/alternatives/")
  }

  /** discoverPHP reads php-config only off Windows, when it can be Lstat'ed and is not
      an alternatives link. */
  predicate UsesPhpConfig(host: Host, dir: string, binName: string) {
    var p := PhpConfigPath(dir, binName);
    !host.isWindows && host.lstat(p).Some? && !ViaAlternatives(host, p)
  }

  /** discoverPHP: one strategy, and no retry with the other when it fails. */
  function DiscoverPHP(host: Host, dir: string, binName: string): Option<Version> {
    if UsesPhpConfig(host, dir, binName) then ConfigDiscovery(host, dir, binName)
    else BinaryDiscovery(host, dir, binName)
  }

  /** Which strategy discoverPHP takes: the binary on Windows, when php-config cannot be
      Lstat'ed and when it is an alternatives link; php-config otherwise, whose failure
      is final even when the binary would have answered. */
  lemma DiscoverPHPChoice(host: Host, dir: string, binName: string)
    ensures host.isWindows ==> DiscoverPHP(host, dir, binName) == BinaryDiscovery(host, dir, binName)
    ensures host.lstat(PhpConfigPath(dir, binName)).None? ==>
      DiscoverPHP(host, dir, binName) == BinaryDiscovery(host, dir, binName)
    ensures ViaAlternatives(host, PhpConfigPath(dir, binName)) ==>
      DiscoverPHP(host, dir, binName) == BinaryDiscovery(host, dir, binName)
    ensures !host.isWindows && host.lstat(PhpConfigPath(dir, binName)).Some?
            && !ViaAlternatives(host, PhpConfigPath(dir, binName)) ==>
      DiscoverPHP(host, dir, binName) == ConfigDiscovery(host, dir, binName)
  {
  }

  /** Whichever strategy answers, the record describes the installation in `dir`, is not
      yet the system one, serves through the CLI unless a tool was found, and carries a
      version that fits a vernum and prints as its `version` string. */
  lemma DiscoverPHPRecord(host: Host, dir: string, binName: string)
    requires DiscoverPHP(host, dir, binName).Some?
    ensures var v := DiscoverPHP(host, dir, binName).value;
      && v.path == dir && !v.isSystem && !v.frankenPHP
      && v.version == VersionString(v.full) && FitsVernum(v.full)
  {
    var v := DiscoverPHP(host, dir, binName).value;
    if UsesPhpConfig(host, dir, binName) {
      ConfigDiscoveryResult(host, dir, binName);
      var lines := Lines(host.readFile(PhpConfigPath(dir, binName)).value);
      LastVernumFits(lines);
    } else {
      BinaryDiscoveryNeeds(host, dir, binName);
      var out := host.versionOutput(BinaryPath(host, dir, binName)).value;
      BannerShape(out);
      ValidateVersionFits(NormalizeVersion(Banner(out).value));
    }
  }

  /* ---------------------------------------------------------------- findFromDir */

  /** The installation directory and the directory to scan for binaries. */
  datatype Roots = Roots(dir: string, root: string)

  /** findFromDir's adjustment: a `bin` directory stands for its parent installation and
      is scanned itself; elsewhere the installation is `dir` and, off Windows, its `bin`
      is scanned. */
  function FindRoots(isWindows: bool, dir: string): Roots {
    if Base(dir) == "bin" then Roots(Dir(dir), dir)
    else if !isWindows then Roots(dir, Join(dir, "bin"))
    else Roots(dir, dir)
  }

  /** The installation `d` is found the same way from `d` and from `d/bin`. */
  lemma FindRootsOfBin(isWindows: bool, d: string)
    requires IsCleanDir(d) && d != "." && Base(d) != "bin"
    ensures FindRoots(isWindows, Join(d, "bin")) == Roots(d, Join(d, "bin"))
    ensures !isWindows ==> FindRoots(isWindows, d) == FindRoots(isWindows, Join(d, "bin"))
    ensures isWindows ==> FindRoots(isWindows, d) == Roots(d, d)
  {
    DirBaseOfJoin(d, "bin");
  }

  /** A found installation as a list of zero or one record. */
  function AsList(v: Option<Version>): seq<Version> {
    if v.Some? then [v.value] else []
  }

  /** What the Walk over the scan root finds in the entries `es`: every non-directory
      whose name the binary filter accepts and that `discover` recognises in `dir`. */
  function WalkFound(discover: (string, string) -> Option<Version>, dir: string,
                     accepts: string -> bool, es: seq<Entry>): seq<Version>
    decreases |es|
  {
    if es == [] then []
    else
      var e := es[|es| - 1];
      WalkFound(discover, dir, accepts, es[..|es| - 1])
        + (if !e.isDir && accepts(e.name) then AsList(discover(dir, e.name)) else [])
  }

  /** One more entry of the Walk adds what that entry finds. */
  lemma WalkFoundStep(discover: (string, string) -> Option<Version>, dir: string,
                      accepts: string -> bool, es: seq<Entry>, i: nat)
    requires i < |es|
    ensures WalkFound(discover, dir, accepts, es[..i + 1])
         == WalkFound(discover, dir, accepts, es[..i])
            + (if !es[i].isDir && accepts(es[i].name) then AsList(discover(dir, es[i].name)) else [])
  {
    assert es[..i + 1][..i] == es[..i];
  }

  /** findFromDir with `discover` for discoverPHP: without a binary filter, `php` in the
      installation; with one, the scan root itself (when its name is accepted) and then
      each accepted file in it. */
  function FoundWith(host: Host, dir: string, filter: Option<string -> bool>,
                     discover: (string, string) -> Option<Version>): seq<Version>
  {
    var r := FindRoots(host.isWindows, dir);
    match filter
    case None => AsList(discover(r.dir, "php"))
    case Some(accepts) =>
      if !host.stat(r.root) then []
      else
        (if accepts(Base(r.root)) then AsList(discover(r.dir, Base(r.root))) else [])
        + WalkFound(discover, r.dir, accepts, host.entries(r.root))
  }

  /** discoverPHP on `host`, as the function findFromDir calls. */
  function Discoverer(host: Host): (string, string) -> Option<Version> {
    (d, n) => DiscoverPHP(host, d, n)
  }

  /** findFromDir, as a value. */
  function FoundIn(host: Host, dir: string, filter: Option<string -> bool>): seq<Version> {
    FoundWith(host, dir, filter, Discoverer(host))
  }

  /** findFromDir, given discoverPHP as `discover`. */
  method FindFromDir(host: Host, dir0: string, filter: Option<string -> bool>,
                     discover: (string, string) -> Option<Version>) returns (versions: seq<Version>)
    ensures versions == FoundWith(host, dir0, filter, discover)
  {
    var dir, root := dir0, dir0;
    if Base(dir0) == "bin" {
      dir := Dir(dir0);
    } else if !host.isWindows {
      root := Join(dir0, "bin");
    }
    if filter.None? {
      var v := discover(dir, "php");
      if v.Some? {
        return [v.value];
      }
      return [];
    }
    var accepts := filter.value;
    if !host.stat(root) {
      return [];
    }
    versions := [];
    if accepts(Base(root)) {
      var v := discover(dir, Base(root));
      if v.Some? {
        versions := [v.value];
      }
    }
    var es := host.entries(root);
    var walked: seq<Version> := [];
    var i := 0;
    while i < |es|
      invariant 0 <= i <= |es|
      invariant walked == WalkFound(discover, dir, accepts, es[..i])
    {
      var e := es[i];
      WalkFoundStep(discover, dir, accepts, es, i);
      if !e.isDir && accepts(e.name) {
        var v := discover(dir, e.name);
        walked := walked + AsList(v);
      }
      i := i + 1;
    }
    assert es[..i] == es;
    versions := versions + walked;
  }

  /** A discovery function whose records describe the directory they were asked about
      and are not yet the system one. */
  ghost predicate RecordsDir(discover: (string, string) -> Option<Version>) {
    forall d, n :: discover(d, n).Some? ==> discover(d, n).value.path == d && !discover(d, n).value.isSystem
  }

  /** discoverPHP is such a function. */
  lemma DiscoverPHPRecordsDir(host: Host)
    ensures RecordsDir(Discoverer(host))
  {
    forall d, n | DiscoverPHP(host, d, n).Some?
      ensures DiscoverPHP(host, d, n).value.path == d && !DiscoverPHP(host, d, n).value.isSystem
    {
      DiscoverPHPRecord(host, d, n);
    }
  }

  /** Every record the Walk finds describes the installation. */
  lemma {:induction false} WalkFoundRecords(discover: (string, string) -> Option<Version>, dir: string,
                                            accepts: string -> bool, es: seq<Entry>)
    requires RecordsDir(discover)
    ensures forall k :: 0 <= k < |WalkFound(discover, dir, accepts, es)| ==>
      WalkFound(discover, dir, accepts, es)[k].path == dir && !WalkFound(discover, dir, accepts, es)[k].isSystem
    decreases |es|
  {
    if es != [] {
      WalkFoundRecords(discover, dir, accepts, es[..|es| - 1]);
    }
  }

  /** Every record findFromDir returns describes the adjusted installation directory and
      is not yet the system one; without a filter there is at most one. */
  lemma FoundInRecords(host: Host, dir: string, filter: Option<string -> bool>)
    ensures var found := FoundIn(host, dir, filter);
      forall k :: 0 <= k < |found| ==>
        found[k].path == FindRoots(host.isWindows, dir).dir && !found[k].isSystem
    ensures filter.None? ==> |FoundIn(host, dir, filter)| <= 1
  {
    DiscoverPHPRecordsDir(host);
    FoundWithRecords(host, dir, filter, Discoverer(host));
  }

  /** FoundInRecords for any `discover` that describes the directory it is given. */
  lemma FoundWithRecords(host: Host, dir: string, filter: Option<string -> bool>,
                         discover: (string, string) -> Option<Version>)
    requires RecordsDir(discover)
    ensures var found := FoundWith(host, dir, filter, discover);
      forall k :: 0 <= k < |found| ==>
        found[k].path == FindRoots(host.isWindows, dir).dir && !found[k].isSystem
    ensures filter.None? ==> |FoundWith(host, dir, filter, discover)| <= 1
  {
    var r := FindRoots(host.isWindows, dir);
    if filter.Some? && host.stat(r.root) {
      WalkFoundRecords(discover, r.dir, filter.value, host.entries(r.root));
    }
  }

  /** Off Windows, an installation gives the same records whether it is named by its
      directory or by its `bin` directory. */
  lemma FoundInOfBin(host: Host, d: string, filter: Option<string -> bool>)
    requires !host.isWindows && IsCleanDir(d) && d != "." && Base(d) != "bin"
    ensures FoundIn(host, Join(d, "bin"), filter) == FoundIn(host, d, filter)
  {
    FindRootsOfBin(host.isWindows, d);
  }

  /* ---------------------------------------------------------------- discoverFromDir */

  /** The depth discoverFromDir allows below its root: one, plus one per '/' in the
      directory filter. */
  function MaxDepth(pathFilter: Option<string>): nat {
    match pathFilter
    case None => 1
    case Some(p) => 1 + CountChar(p, '/')
  }

  /** A directory at the relative path `rel` is pruned when it has more separators than allowed. */
  predicate TooDeep(rel: string, maxDepth: nat) {
    CountChar(rel, '/') > maxDepth
  }

  /** The separators of a joined path are the ones between its parts. */
  lemma {:induction false} CountJoined(parts: seq<string>)
    requires |parts| >= 1
    requires forall k :: 0 <= k < |parts| ==> '/' !in parts[k]
    ensures CountChar(JoinWith(parts, '/'), '/') == |parts| - 1
  {
    if |parts| > 1 {
      CountJoined(parts[1..]);
      CountAppend(parts[0] + ['/'], JoinWith(parts[1..], '/'), '/');
      CountAppend(parts[0], ['/'], '/');
      assert parts[0] + ['/'] + JoinWith(parts[1..], '/') == JoinWith(parts, '/');
    }
  }

  /** A directory `parts` levels below the root passes the depth test exactly when there are
      at most maxDepth + 1 of them; so with no filter, the root's children and grandchildren
      are not pruned by the depth test. */
  lemma DepthBound(parts: seq<string>, pathFilter: Option<string>)
    requires |parts| >= 1
    requires forall k :: 0 <= k < |parts| ==> '/' !in parts[k]
    ensures !TooDeep(JoinWith(parts, '/'), MaxDepth(pathFilter)) <==> |parts| <= MaxDepth(pathFilter) + 1
  {
    CountJoined(parts);
  }

  /* ---------------------------------------------------------------- pathDirectories */

  /** The one placeholder a PATH entry may hold, spelled as the Go string literal has it. */
  const UserProfileVar := "%%USERPROFILE%%"

  /** A PATH entry with its placeholder filled and its symbolic links resolved. */
  function Resolved(host: Host, user: string, entry: string): Option<string> {
    host.resolve(ReplaceFirst(entry, UserProfileVar, user))
  }

  /** The directories pathDirectories keeps from `entries`, in order: each resolved entry
      that is neither empty, the shim directory nor already kept. */
  function KeptDirs(host: Host, shim: string, user: string, entries: seq<string>): seq<string>
    decreases |entries|
  {
    if entries == [] then []
    else
      var kept := KeptDirs(host, shim, user, entries[..|entries| - 1]);
      match Resolved(host, user, entries[|entries| - 1])
      case None => kept
      case Some(e) => if e == shim || e == "" || e in kept then kept else kept + [e]
  }

  /** pathDirectories, given the values of PATH (Path on Windows) and USERPROFILE. */
  method PathDirectories(host: Host, configDir: string, path: string, user: string) returns (dirs: seq<string>)
    ensures dirs == KeptDirs(host, Join(configDir, "bin"), user, SplitList(path, host.isWindows))
  {
    var shim := Join(configDir, "bin");
    var entries := SplitList(path, host.isWindows);
    dirs := [];
    var seen: set<string> := {};
    var i := 0;
    while i < |entries|
      invariant 0 <= i <= |entries|
      invariant dirs == KeptDirs(host, shim, user, entries[..i])
      invariant forall d :: d in seen <==> d in dirs
    {
      assert entries[..i + 1][..i] == entries[..i];
      var dir := ReplaceFirst(entries[i], UserProfileVar, user);
      var edir := host.resolve(dir);
      if edir.Some? && edir.value != shim && edir.value != "" && edir.value !in seen {
        dirs := dirs + [edir.value];
        seen := seen + {edir.value};
      }
      i := i + 1;
    }
    assert entries[..i] == entries;
  }

  /** The kept directories hold no duplicate, no empty path and not the shim directory. */
  lemma {:induction false} KeptDirsClean(host: Host, shim: string, user: string, entries: seq<string>)
    ensures var dirs := KeptDirs(host, shim, user, entries);
      && (forall i, j :: 0 <= i < j < |dirs| ==> dirs[i] != dirs[j])
      && "" !in dirs && shim !in dirs
    decreases |entries|
  {
    if entries != [] {
      KeptDirsClean(host, shim, user, entries[..|entries| - 1]);
    }
  }

  /** Every kept directory is the resolution of some entry. */
  lemma {:induction false} KeptDirsSound(host: Host, shim: string, user: string, entries: seq<string>)
    ensures forall d :: d in KeptDirs(host, shim, user, entries) ==>
      exists k :: 0 <= k < |entries| && Resolved(host, user, entries[k]) == Some(d)
    decreases |entries|
  {
    if entries != [] {
      var init := entries[..|entries| - 1];
      KeptDirsSound(host, shim, user, init);
      forall d | d in KeptDirs(host, shim, user, entries)
        ensures exists k :: 0 <= k < |entries| && Resolved(host, user, entries[k]) == Some(d)
      {
        if d in KeptDirs(host, shim, user, init) {
          var k :| 0 <= k < |init| && Resolved(host, user, init[k]) == Some(d);
          assert entries[k] == init[k];
        } else {
          assert Resolved(host, user, entries[|entries| - 1]) == Some(d);
        }
      }
    }
  }

  /** Every entry that resolves to a directory other than "" and the shim is kept. */
  lemma {:induction false} KeptDirsComplete(host: Host, shim: string, user: string, entries: seq<string>)
    ensures forall k :: 0 <= k < |entries| && Resolved(host, user, entries[k]).Some?
                        && Resolved(host, user, entries[k]).value != ""
                        && Resolved(host, user, entries[k]).value != shim ==>
      Resolved(host, user, entries[k]).value in KeptDirs(host, shim, user, entries)
    decreases |entries|
  {
    if entries != [] {
      var init := entries[..|entries| - 1];
      KeptDirsComplete(host, shim, user, init);
      forall k | 0 <= k < |entries| - 1 ensures entries[k] == init[k] { }
    }
  }

  /** The directories kept from a prefix of PATH come first, in the same order. */
  lemma {:induction false} KeptDirsPrefix(host: Host, shim: string, user: string, entries: seq<string>, n: nat)
    requires n <= |entries|
    ensures var small := KeptDirs(host, shim, user, entries[..n]);
      && |small| <= |KeptDirs(host, shim, user, entries)|
      && small == KeptDirs(host, shim, user, entries)[..|small|]
    decreases |entries|
  {
    if n < |entries| {
      var init := entries[..|entries| - 1];
      assert init[..n] == entries[..n];
      KeptDirsPrefix(host, shim, user, init, n);
    } else {
      assert entries[..n] == entries;
    }
  }
}
