/**
 * Directory entries, the filter configuration and the two scandir filter
 * callbacks of dirsample.c.
 */
module Filters {
  import opened Wrappers
  import opened CStrings

  /** The d_type values a directory entry can report. */
  datatype EntryKind = Unknown | Fifo | CharDevice | Directory | BlockDevice | Regular | Symlink | Socket | Whiteout

  /** One entry of a directory listing (the part of struct dirent that is read). */
  datatype Entry = Entry(name: string, kind: EntryKind)

  /**
   * The filter configuration that dirsample.c keeps in the globals
   * filter_string (None for NULL) and case_sensitive.
   */
  datatype Config = Config(pattern: Option<string>, caseSensitive: bool)

  /** filter_string is NULL until -p is given; case_sensitive starts at 1. */
  const DefaultConfig := Config(None, true)

  /** filter_by_string: accept the entry unless a pattern is set and not found in its name. */
  function FilterByString(cfg: Config, e: Entry): (accepted: bool)
    ensures cfg.pattern.None? ==> accepted
    ensures cfg.pattern.Some? && cfg.caseSensitive ==>
              (accepted <==> Contains(e.name, cfg.pattern.value))
    ensures cfg.pattern.Some? && !cfg.caseSensitive ==>
              (accepted <==> exists k :: CaseOccursAt(e.name, cfg.pattern.value, k))
  {
    match cfg.pattern
    case None => true
    case Some(p) =>
      if cfg.caseSensitive then StrStr(e.name, p).Some? else StrCaseStr(e.name, p).Some?
  }

  /** filter_dir: accept exactly the entries whose type is DT_DIR. */
  function FilterDir(e: Entry): (accepted: bool)
  {
    e.kind == Directory
  }

  /**
   * The filter function handed to scandir: a closed choice between the two
   * callbacks the program defines.
   */
  datatype Filter = ByString(cfg: Config) | DirsOnly

  function Accepts(f: Filter, e: Entry): (accepted: bool)
  {
    match f
    case ByString(cfg) => FilterByString(cfg, e)
    case DirsOnly => FilterDir(e)
  }

  /** With no pattern every entry passes, whatever the case setting. */
  lemma NoPatternAcceptsAll(caseSensitive: bool, e: Entry)
    ensures FilterByString(Config(None, caseSensitive), e)
  {
  }

  /** Case-insensitive mode accepts exactly the names in which the lower-cased pattern occurs once lower-cased. */
  lemma InsensitiveMeaning(p: string, e: Entry)
    ensures FilterByString(Config(Some(p), false), e) <==> Contains(Lower(e.name), Lower(p))
  {
  }

  /** The empty pattern matches every name in both modes. */
  lemma EmptyPatternAcceptsAll(caseSensitive: bool, e: Entry)
    ensures FilterByString(Config(Some([]), caseSensitive), e)
  {
  }

  /** Anything accepted case-sensitively is accepted case-insensitively. */
  lemma {:induction false} SensitiveImpliesInsensitive(p: string, e: Entry)
    requires FilterByString(Config(Some(p), true), e)
    ensures FilterByString(Config(Some(p), false), e)
  {
    var k :| OccursAt(e.name, p, k);
    OccursAtLower(e.name, p, k);
    CaseOccursAtLower(e.name, p, k);
  }

  /**
   * A name made only of dots, such as "." or "..", fails every pattern that
   * holds a byte other than a dot, in either case mode.
   */
  lemma DotsRejected(p: string, caseSensitive: bool, e: Entry)
    requires forall i :: 0 <= i < |e.name| ==> e.name[i] == '.'
    requires exists j :: 0 <= j < |p| && p[j] != '.'
    ensures !FilterByString(Config(Some(p), caseSensitive), e)
  {
    var j :| 0 <= j < |p| && p[j] != '.';
    assert ToLower(p[j]) != '.';
    forall k | 0 <= k && k + |p| <= |e.name| ensures !OccursAt(e.name, p, k) && !CaseOccursAt(e.name, p, k) {
      assert e.name[k..k + |p|][j] == e.name[k + j];
      assert ToLower(e.name[k + j]) == '.';
    }
  }

  /** filter_dir depends on the entry's type alone, never on its name. */
  lemma FilterDirIgnoresName(n1: string, n2: string, kind: EntryKind)
    ensures FilterDir(Entry(n1, kind)) == FilterDir(Entry(n2, kind))
    ensures FilterDir(Entry(n1, kind)) <==> kind == Directory
  {
  }

  /** Pattern "ab" matches "cabd" and not "acd"; "AB" misses "abc" unless case is ignored. */
  lemma FilterExamples()
    ensures FilterByString(Config(Some("ab"), true), Entry("cabd", Regular))
    ensures !FilterByString(Config(Some("ab"), true), Entry("acd", Regular))
    ensures !FilterByString(Config(Some("AB"), true), Entry("abc", Regular))
    ensures FilterByString(Config(Some("AB"), false), Entry("abc", Regular))
  {
    assert OccursAt("cabd", "ab", 1);
    assert "acd"[0..2] == "ac" && "acd"[1..3] == "cd";
    assert !OccursAt("acd", "ab", 0) && !OccursAt("acd", "ab", 1);
    assert "abc"[0..2] == "ab" && "abc"[1..3] == "bc";
    assert !OccursAt("abc", "AB", 0) && !OccursAt("abc", "AB", 1);
    assert CaseOccursAt("abc", "AB", 0);
  }
}
