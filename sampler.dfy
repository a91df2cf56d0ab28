/**
 * print_sample_entry: read one directory, pick one candidate by the fixed
 * every-seventh rule and format its path.
 */
module Sampler {
  import opened Wrappers
  import opened Filters
  import opened Listing

  /** The selected position: the largest multiple of 7 below the count. */
  function SampleIndex(num: int): (o: int)
    requires num >= 1
    ensures o % 7 == 0 && 0 <= o < num && num - o <= 7
  {
    7 * ((num - 1) / 7)
  }

  /** The three bounds pin the selected position down. */
  lemma SampleIndexUnique(num: int, o: int)
    requires num >= 1 && o % 7 == 0 && 0 <= o < num && num - o <= 7
    ensures o == SampleIndex(num)
  {
  }

  /** One more iteration of the selection loop. */
  lemma SampleIndexStep(i: int)
    requires i >= 0
    ensures i % 7 == 0 ==> SampleIndex(i + 1) == i
    ensures i % 7 != 0 ==> i >= 1 && SampleIndex(i + 1) == SampleIndex(i)
  {
  }

  /** For N = 1, 7, 8, 14 and 15 entries the 1st, 1st, 8th, 8th and 15th is chosen. */
  lemma SampleIndexExamples()
    ensures SampleIndex(1) == 0 && SampleIndex(7) == 0 && SampleIndex(8) == 7
    ensures SampleIndex(14) == 7 && SampleIndex(15) == 14
  {
  }

  /**
   * The loop of print_sample_entry that walks i over 0..num-1 and remembers
   * the last i divisible by 7.
   */
  method SelectIndex(num: int) returns (oIndex: int)
    ensures num <= 0 ==> oIndex == 0
    ensures num >= 1 ==> oIndex == SampleIndex(num)
  {
    oIndex := 0;
    var i := 0;
    while i < num
      invariant 0 <= i <= if num < 0 then 0 else num
      invariant i == 0 ==> oIndex == 0
      invariant i >= 1 ==> oIndex == SampleIndex(i)
    {
      SampleIndexStep(i);
      if i % 7 == 0 {
        oIndex := i;
      }
      i := i + 1;
    }
  }

  /** The line print_sample_entry prints for one directory, or None when it prints nothing. */
  function SampleLine(dirName: string, listing: Option<seq<Entry>>, filter: Filter): (line: Option<string>)
  {
    var scan := ScanDir(listing, filter);
    if scan.num <= 0 then None
    else Some(dirName + "/" + scan.namelist[SampleIndex(scan.num)].name + "\n")
  }

  /**
   * print_sample_entry(dir_name, filter) on a directory whose raw listing is
   * `listing` (None when it cannot be read); the returned line stands for
   * what is written to standard output.
   */
  method PrintSampleEntry(dirName: string, listing: Option<seq<Entry>>, filter: Filter)
    returns (line: Option<string>)
    ensures line == SampleLine(dirName, listing, filter)
    ensures line.None? <==> listing.None? || forall e :: e in listing.value ==> !Accepts(filter, e)
    ensures line.Some? ==>
              var namelist := ScanDir(listing, filter).namelist;
              0 < |namelist| && line.value == dirName + "/" + namelist[SampleIndex(|namelist|)].name + "\n"
  {
    var scan := ScanDir(listing, filter);
    var num, namelist := scan.num, scan.namelist;
    if num <= 0 {
      SampleLineEmpty(dirName, listing, filter);
      return None;
    }
    var oIndex := SelectIndex(num);
    line := Some(dirName + "/" + namelist[oIndex].name + "\n");
    SampleLineEmpty(dirName, listing, filter);
  }

  /** No line exactly when the directory is unreadable or nothing in it passes the filter. */
  lemma SampleLineEmpty(dirName: string, listing: Option<seq<Entry>>, filter: Filter)
    ensures SampleLine(dirName, listing, filter).None? <==>
            listing.None? || forall e :: e in listing.value ==> !Accepts(filter, e)
  {
  }

  /**
   * A printed line is the directory argument unchanged, a slash, and the name
   * of an entry of that directory which passes the filter, then a newline.
   */
  lemma SampleLineChosen(dirName: string, listing: Option<seq<Entry>>, filter: Filter)
    ensures SampleLine(dirName, listing, filter).Some? ==>
              listing.Some? &&
              exists e :: e in listing.value && Accepts(filter, e) &&
                          SampleLine(dirName, listing, filter).value == dirName + "/" + e.name + "\n"
    ensures SampleLine(dirName, listing, filter).Some? ==>
              var line := SampleLine(dirName, listing, filter).value;
              line[..|dirName|] == dirName && line[|dirName|] == '/' && line[|line| - 1] == '\n'
  {
    if SampleLine(dirName, listing, filter).Some? {
      var scan := ScanDir(listing, filter);
      assert listing.Some? && scan.num == |scan.namelist| >= 1;
      var e := scan.namelist[SampleIndex(scan.num)];
      assert e in scan.namelist;
      assert e in listing.value && Accepts(filter, e);
      assert SampleLine(dirName, listing, filter).value == dirName + "/" + e.name + "\n";
      LineShape(dirName, e.name);
    }
  }

  /** The printf format "%s/%s\n": the directory, a slash, the name, a newline. */
  lemma LineShape(dirName: string, name: string)
    ensures var line := dirName + "/" + name + "\n";
            line[..|dirName|] == dirName && line[|dirName|] == '/' && line[|line| - 1] == '\n'
  {
  }

  /**
   * When every entry passes the filter and the listing is already in order,
   * the entry at the selected position of the raw listing is printed.
   */
  lemma {:induction false} SampleOfSortedListing(dirName: string, s: seq<Entry>, filter: Filter)
    requires SortedByName(s) && s != []
    requires forall e :: e in s ==> Accepts(filter, e)
    ensures SampleLine(dirName, Some(s), filter) == Some(dirName + "/" + s[SampleIndex(|s|)].name + "\n")
  {
    SelectAll(filter, s);
    SortSortedIdentity(s);
  }

  /** The printed line names the candidate at the selected index. */
  lemma SampleLineOfCandidates(dirName: string, listing: Option<seq<Entry>>, filter: Filter, c: seq<Entry>)
    requires listing.Some? && ScanDir(listing, filter).namelist == c && c != []
    ensures SampleLine(dirName, listing, filter) == Some(dirName + "/" + c[SampleIndex(|c|)].name + "\n")
  {
  }

  lemma EightEntriesSorted()
    ensures SortedByName(EightEntries())
  {
    var s := EightEntries();
    forall i, j | 0 <= i < j < |s| ensures NameLe(s[i].name, s[j].name) {
      assert s[i].name == ['e', s[i].name[1]] && s[j].name == ['e', s[j].name[1]];
      assert s[i].name[1] < s[j].name[1];
    }
  }

  /**
   * The raw listing of /tmp/d: the dot entries that readdir reports
   * for every readable directory, then e0 .. e7.
   */
  function TmpDListing(): (listing: seq<Entry>)
  {
    [Entry(".", Directory)] + ([Entry("..", Directory)] + EightEntries())
  }

  /** Pattern "e" rejects the dot entries and keeps e0 .. e7. */
  lemma TmpDSelected(s: seq<Entry>)
    requires s == TmpDListing()
    ensures Select(ByString(Config(Some("e"), true)), s) == EightEntries()
  {
    var f := ByString(Config(Some("e"), true));
    assert "e"[0] != '.';
    DotsRejected("e", true, Entry(".", Directory));
    DotsRejected("e", true, Entry("..", Directory));
    var c := EightEntries();
    SelectSkip(f, Entry(".", Directory), [Entry("..", Directory)] + c);
    SelectSkip(f, Entry("..", Directory), c);
    EightEntriesAccepted();
    SelectAll(f, c);
  }

  /** So the candidate list of /tmp/d under -p e is e0 .. e7. */
  lemma TmpDCandidates(s: seq<Entry>)
    requires s == TmpDListing()
    ensures ScanDir(Some(s), ByString(Config(Some("e"), true))).namelist == EightEntries()
  {
    TmpDSelected(s);
    EightEntriesSorted();
    ScanOfSortedSelection(s, ByString(Config(Some("e"), true)), EightEntries());
  }

  lemma EightEntriesAccepted()
    ensures forall e :: e in EightEntries() ==> Accepts(ByString(Config(Some("e"), true)), e)
  {
  }

  /**
   * /tmp/d holds ".", ".." and e0 .. e7; with -p e the eight candidates
   * left after filtering are e0 .. e7, and the eighth is printed.
   */
  lemma EightEntriesExample(s: seq<Entry>)
    requires s == TmpDListing()
    ensures SampleLine("/tmp/d", Some(s), ByString(Config(Some("e"), true)))
         == Some("/tmp/d" + "/" + "e7" + "\n")
  {
    var f := ByString(Config(Some("e"), true));
    var c := EightEntries();
    var name := c[SampleIndex(|c|)].name;
    assert SampleLine("/tmp/d", Some(s), f) == Some("/tmp/d" + "/" + name + "\n") by {
      TmpDCandidates(s);
      SampleLineOfCandidates("/tmp/d", Some(s), f, c);
    }
    assert name == "e7" by {
      EighthIsE7();
    }
  }

  lemma EighthIsE7()
    ensures EightEntries()[SampleIndex(|EightEntries()|)].name == "e7"
  {
  }

  function EightEntries(): (listing: seq<Entry>)
  {
    [Entry("e0", Regular), Entry("e1", Regular), Entry("e2", Regular), Entry("e3", Regular),
     Entry("e4", Regular), Entry("e5", Regular), Entry("e6", Regular), Entry("e7", Regular)]
  }

  /** The raw listing of a readable directory with no files of its own. */
  function DotEntries(): (listing: seq<Entry>)
  {
    [Entry(".", Directory), Entry("..", Directory)]
  }

  /**
   * A directory that cannot be read (scandir returns -1), or whose raw
   * listing has no entry the filter accepts (scandir returns 0), prints
   * nothing: here a directory holding only "." and ".." under -p x.
   */
  lemma NothingAcceptedExample(dirName: string, dots: seq<Entry>)
    requires dots == DotEntries()
    ensures SampleLine(dirName, None, ByString(Config(Some("x"), true))) == None
    ensures SampleLine(dirName, Some(dots), ByString(Config(Some("x"), true))) == None
  {
    var f := ByString(Config(Some("x"), true));
    assert "x"[0] != '.';
    DotsRejected("x", true, Entry(".", Directory));
    DotsRejected("x", true, Entry("..", Directory));
    assert forall e :: e in dots ==> !Accepts(f, e);
    SampleLineEmpty(dirName, Some(dots), f);
  }

  /** "." sorts before ".." and is at the selected position of a two-entry list. */
  lemma DotEntriesSorted(dots: seq<Entry>)
    requires dots == DotEntries()
    ensures SortedByName(dots) && dots != []
    ensures dots[SampleIndex(|dots|)].name == "."
  {
  }

  /**
   * A readable directory with no files of its own still lists "." and "..";
   * with no pattern both pass, so "." is printed.
   */
  lemma EmptyDirectoryExample(dirName: string, dots: seq<Entry>)
    requires dots == DotEntries()
    ensures SampleLine(dirName, Some(dots), ByString(DefaultConfig)) == Some(dirName + "/" + "." + "\n")
  {
    var f := ByString(DefaultConfig);
    DotEntriesSorted(dots);
    forall e | e in dots ensures Accepts(f, e) {
      NoPatternAcceptsAll(true, e);
    }
    SampleOfSortedListing(dirName, dots, f);
  }
}
