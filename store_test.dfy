/**
 * The lookups store_test.go asserts, on the store that test builds once it is sorted:
 * five CLI installations and one FPM installation of 8.0.26 (paths left empty, as the
 * lookups never read them).
 */
module StoreTest {
  import opened Wrappers
  import opened Text
  import opened PhpVersion
  import opened Store

  /** One installation of the test store. */
  function TestRecord(s: string, t: Triple, fpm: string): Version {
    Version(t, s, "", "", fpm, "", "", "", "", false, false)
  }

  /** The test store after sort.Sort. */
  function TestStore(): seq<Version> {
    [TestRecord("7.4.33", Triple(7, 4, 33), ""), TestRecord("8.0.26", Triple(8, 0, 26), "/foo/8.0.26/bin/php-fpm"),
     TestRecord("8.0.27", Triple(8, 0, 27), ""), TestRecord("8.1.2", Triple(8, 1, 2), ""),
     TestRecord("8.1.14", Triple(8, 1, 14), ""), TestRecord("8.2.1", Triple(8, 2, 1), "")]
  }

  /** A string that differs from p at some position p covers does not start with p. */
  lemma DiffersAt(s: string, p: string, k: nat)
    requires k < |p| && k < |s| && s[k] != p[k]
    ensures !HasPrefix(s, p)
  {
  }

  /** The listing above is indeed in version order. */
  lemma TestStoreSorted()
    ensures Sorted(TestStore())
  {
  }

  /** "8" picks the newest 8.x. */
  lemma TestMajor()
    ensures var r := BestVersionOf(TestStore(), None, "8", "testing"); r.Found? && r.record.version == "8.2.1" && r.warning == ""
  {
    RequestWithOneDot("8");
    LastWithPrefixAt(TestStore(), "8", 5);
  }

  /** "8.1" picks 8.1.14, not 8.1.2. */
  lemma TestMinor()
    ensures var r := BestVersionOf(TestStore(), None, "8.1", "testing"); r.Found? && r.record.version == "8.1.14" && r.warning == ""
  {
    assert CountChar("8.1", '.') == 1;
    RequestWithOneDot("8.1");
    var vs := TestStore();
    DiffersAt(vs[5].version, "8.1", 2);
    LastWithPrefixAt(vs, "8.1", 4);
  }

  /** The newest record under "8.0" is 8.0.27. */
  lemma TestMinorPrefix()
    ensures LastWithPrefix(TestStore(), "8.0") == Some(2)
  {
    var vs := TestStore();
    DiffersAt(vs[3].version, "8.0", 2);
    DiffersAt(vs[4].version, "8.0", 2);
    DiffersAt(vs[5].version, "8.0", 2);
    LastWithPrefixAt(vs, "8.0", 2);
  }

  /** 8.0.10 is not installed. */
  lemma TestNoPatch()
    ensures forall k :: 0 <= k < |TestStore()| ==> TestStore()[k].version != "8.0.10"
  {
  }

  /** A missing patch falls back to the newest record of its minor version, with a warning. */
  lemma TestPatchMiss()
    ensures var r := BestVersionOf(TestStore(), None, "8.0.10", "testing"); r.Found? && r.record.version == "8.0.27" && r.warning != ""
  {
    var vs := TestStore();
    assert "8.0" + "." + "10" == "8.0.10";
    TestNoPatch();
    BestPatchMiss(vs, None, "8.0", "10", "testing");
    TestMinorPrefix();
  }

  /** The ".99" wildcard reaches the same record without a warning. */
  lemma TestWildcard()
    ensures var r := BestVersionOf(TestStore(), None, "8.0.99", "testing"); r.Found? && r.record.version == "8.0.27" && r.warning == ""
  {
    assert "8.0" + ".99" == "8.0.99";
    BestWildcard(TestStore(), None, "8.0", "testing");
    TestMinorPrefix();
  }
}
