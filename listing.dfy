/**
 * The directory read that print_sample_entry delegates to scandir: keep the
 * entries the filter accepts and sort them by name with alphasort, here in
 * byte-wise (strcmp) order.
 */
module Listing {
  import opened Wrappers
  import opened Filters

  /** strcmp(a, b) <= 0: `a` is a prefix of `b` or is smaller at the first differing byte. */
  predicate NameLe(a: string, b: string)
    ensures a <= b ==> NameLe(a, b)
  {
    if a == [] then true
    else if b == [] then false
    else if a[0] != b[0] then a[0] < b[0]
    else NameLe(a[1..], b[1..])
  }

  lemma {:induction false} NameLeTotal(a: string, b: string)
    ensures NameLe(a, b) || NameLe(b, a)
  {
    if a != [] && b != [] && a[0] == b[0] {
      NameLeTotal(a[1..], b[1..]);
    }
  }

  lemma {:induction false} NameLeTransitive(a: string, b: string, c: string)
    requires NameLe(a, b) && NameLe(b, c)
    ensures NameLe(a, c)
  {
    if a != [] && b != [] && c != [] && a[0] == b[0] == c[0] {
      NameLeTransitive(a[1..], b[1..], c[1..]);
    }
  }

  lemma NameLeReflexive(a: string)
    ensures NameLe(a, a)
  {
  }

  lemma {:induction false} NameLeAntisymmetric(a: string, b: string)
    requires NameLe(a, b) && NameLe(b, a)
    ensures a == b
  {
    if a != [] && b != [] {
      NameLeAntisymmetric(a[1..], b[1..]);
      assert a == [a[0]] + a[1..] && b == [b[0]] + b[1..];
    }
  }

  /** Names ascend along the listing. */
  ghost predicate SortedByName(s: seq<Entry>)
  {
    forall i, j :: 0 <= i < j < |s| ==> NameLe(s[i].name, s[j].name)
  }

  /** The entries of `s` that the filter accepts, in their original order. */
  function Select(f: Filter, s: seq<Entry>): (r: seq<Entry>)
    ensures forall e :: multiset(r)[e] == if Accepts(f, e) then multiset(s)[e] else 0
    ensures forall e :: e in r <==> e in s && Accepts(f, e)
  {
    if s == [] then []
    else
      assert s == [s[0]] + s[1..];
      (if Accepts(f, s[0]) then [s[0]] else []) + Select(f, s[1..])
  }

  /** A filter that accepts every entry keeps the whole listing. */
  lemma {:induction false} SelectAll(f: Filter, s: seq<Entry>)
    requires forall e :: e in s ==> Accepts(f, e)
    ensures Select(f, s) == s
  {
    if s != [] {
      var t := s[1..];
      assert s == [s[0]] + t;
      assert Accepts(f, s[0]) by { assert s[0] in s; }
      assert forall e :: e in t ==> Accepts(f, e) by {
        forall e | e in t ensures e in s {
          var k :| 0 <= k < |t| && t[k] == e;
          assert s[k + 1] == e;
        }
      }
      SelectAll(f, t);
      assert Select(f, s) == [s[0]] + Select(f, t);
    }
  }

  /** A rejected entry at the front of the listing is dropped. */
  lemma SelectSkip(f: Filter, a: Entry, s: seq<Entry>)
    requires !Accepts(f, a)
    ensures Select(f, [a] + s) == Select(f, s)
  {
  }

  lemma SortedCons(x: Entry, t: seq<Entry>)
    requires SortedByName(t)
    requires forall y :: y in t ==> NameLe(x.name, y.name)
    ensures SortedByName([x] + t)
  {
  }

  lemma InsertStep(e: Entry, s: seq<Entry>, t: seq<Entry>)
    requires s != [] && !NameLe(e.name, s[0].name)
    requires multiset(t) == multiset(s[1..]) + multiset{e}
    requires SortedByName(s[1..]) ==> SortedByName(t)
    ensures SortedByName(s) ==> SortedByName([s[0]] + t)
  {
    if SortedByName(s) {
      SortedTail(s);
      NameLeTotal(e.name, s[0].name);
      forall y | y in t ensures NameLe(s[0].name, y.name) {
        assert y in multiset(t);
        if y != e {
          assert y in multiset(s[1..]);
          var k :| 0 <= k < |s[1..]| && s[1..][k] == y;
          assert s[k + 1] == y;
        }
      }
      SortedCons(s[0], t);
    }
  }

  /** Insert one entry into a listing sorted by name. */
  function Insert(e: Entry, s: seq<Entry>): (r: seq<Entry>)
    ensures multiset(r) == multiset(s) + multiset{e}
    ensures SortedByName(s) ==> SortedByName(r)
  {
    if s == [] then [e]
    else if NameLe(e.name, s[0].name) then
      assert SortedByName(s) ==> SortedByName([e] + s) by {
        if SortedByName(s) {
          forall y | y in s ensures NameLe(e.name, y.name) {
            var k :| 0 <= k < |s| && s[k] == y;
            if k > 0 { NameLeTransitive(e.name, s[0].name, y.name); }
          }
          SortedCons(e, s);
        }
      }
      [e] + s
    else
      var t := Insert(e, s[1..]);
      assert s == [s[0]] + s[1..];
      InsertStep(e, s, t);
      [s[0]] + t
  }

  /** alphasort, byte-wise: a sorted permutation of the listing. */
  function SortByName(s: seq<Entry>): (r: seq<Entry>)
    ensures SortedByName(r)
    ensures multiset(r) == multiset(s)
  {
    if s == [] then []
    else
      assert s == [s[0]] + s[1..];
      Insert(s[0], SortByName(s[1..]))
  }

  /** Sorting a listing that is already in order leaves it unchanged. */
  lemma {:induction false} SortSortedIdentity(s: seq<Entry>)
    requires SortedByName(s)
    ensures SortByName(s) == s
  {
    if s != [] {
      var t := s[1..];
      assert s == [s[0]] + t;
      SortedTail(s);
      SortSortedIdentity(t);
      assert SortByName(s) == Insert(s[0], t);
      if t != [] {
        assert t[0] == s[1] && NameLe(s[0].name, s[1].name);
      }
    }
  }

  /**
   * The two results of scandir: the count it returns (-1 when the directory
   * cannot be read) and the namelist array it fills.
   */
  datatype Scan = Scan(num: int, namelist: seq<Entry>)

  /**
   * scandir(dir_name, &namelist, filter, alphasort) on a directory whose raw
   * listing is `listing`, or None when the directory cannot be opened.
   */
  function ScanDir(listing: Option<seq<Entry>>, f: Filter): (r: Scan)
    ensures listing.None? ==> r.num == -1 && r.namelist == []
    ensures listing.Some? ==> r.num == |r.namelist|
    ensures listing.Some? ==> SortedByName(r.namelist)
    ensures listing.Some? ==> multiset(r.namelist) == multiset(Select(f, listing.value))
    ensures listing.Some? ==> forall e :: e in r.namelist <==> e in listing.value && Accepts(f, e)
  {
    match listing
    case None => Scan(-1, [])
    case Some(entries) =>
      var namelist := SortByName(Select(f, entries));
      assert forall e :: e in namelist <==> e in multiset(namelist);
      Scan(|namelist|, namelist)
  }

  /** A selection that is already in order is the candidate list unchanged. */
  lemma ScanOfSortedSelection(s: seq<Entry>, f: Filter, c: seq<Entry>)
    requires Select(f, s) == c && SortedByName(c)
    ensures ScanDir(Some(s), f).namelist == c
  {
    SortSortedIdentity(c);
  }

  lemma SortedTail(s: seq<Entry>)
    requires s != [] && SortedByName(s)
    ensures SortedByName(s[1..])
  {
  }

  /** Two sorted permutations of distinct names start with the same entry. */
  lemma SameHead(a: seq<Entry>, b: seq<Entry>)
    requires a != [] && SortedByName(a) && SortedByName(b)
    requires multiset(a) == multiset(b)
    requires forall i, j :: 0 <= i < j < |a| ==> a[i].name != a[j].name
    ensures b != [] && a[0] == b[0]
  {
    assert a[0] in multiset(b);
    var i :| 0 <= i < |b| && b[i] == a[0];
    assert b[0] in multiset(a);
    var j :| 0 <= j < |a| && a[j] == b[0];
    NameLeReflexive(a[0].name);
    NameLeReflexive(b[0].name);
    assert NameLe(a[0].name, a[j].name) && NameLe(b[0].name, b[i].name);
    NameLeAntisymmetric(a[0].name, b[0].name);
    assert j == 0;
  }

  /** Permutations with the same first entry have permuted tails. */
  lemma SameTails(a: seq<Entry>, b: seq<Entry>)
    requires a != [] && b != [] && a[0] == b[0]
    requires multiset(a) == multiset(b)
    ensures multiset(a[1..]) == multiset(b[1..])
  {
    assert a == [a[0]] + a[1..] && b == [b[0]] + b[1..];
    assert multiset(a) == multiset{a[0]} + multiset(a[1..]);
    assert multiset(b) == multiset{b[0]} + multiset(b[1..]);
    forall e ensures multiset(a[1..])[e] == multiset(b[1..])[e] {
      assert multiset(a)[e] == multiset{a[0]}[e] + multiset(a[1..])[e];
      assert multiset(b)[e] == multiset{b[0]}[e] + multiset(b[1..])[e];
    }
  }

  /**
   * Entry names within one directory are distinct, so the sorted candidate
   * list is unique: any sorted permutation of the accepted entries is the one
   * scandir returns, whatever sorting algorithm it uses.
   */
  lemma {:induction false} SortedPermutationUnique(a: seq<Entry>, b: seq<Entry>)
    requires SortedByName(a) && SortedByName(b)
    requires multiset(a) == multiset(b)
    requires forall i, j :: 0 <= i < j < |a| ==> a[i].name != a[j].name
    ensures a == b
  {
    assert |a| == |multiset(a)| == |b|;
    if a != [] {
      SameHead(a, b);
      assert a == [a[0]] + a[1..] && b == [b[0]] + b[1..];
      SameTails(a, b);
      SortedTail(a);
      SortedTail(b);
      forall p, q | 0 <= p < q < |a[1..]| ensures a[1..][p].name != a[1..][q].name {
        assert a[1..][p] == a[p + 1] && a[1..][q] == a[q + 1];
      }
      SortedPermutationUnique(a[1..], b[1..]);
    }
  }

  /** Unsorted survivors ["b", "a", "c"] become the candidate list ["a", "b", "c"]. */
  lemma SortExample(s: seq<Entry>, t: seq<Entry>)
    requires s == [Entry("b", Regular), Entry("a", Regular), Entry("c", Regular)]
    requires t == [Entry("a", Regular), Entry("b", Regular), Entry("c", Regular)]
    ensures SortByName(s) == t
  {
    AbcSorted(t);
    AbcPermutation(s, t);
    SortedPermutationUnique(t, SortByName(s));
  }

  lemma AbcSorted(t: seq<Entry>)
    requires t == [Entry("a", Regular), Entry("b", Regular), Entry("c", Regular)]
    ensures SortedByName(t)
    ensures forall i, j :: 0 <= i < j < |t| ==> t[i].name != t[j].name
  {
    assert NameLe(t[0].name, t[1].name) && NameLe(t[1].name, t[2].name);
    NameLeTransitive(t[0].name, t[1].name, t[2].name);
    forall i, j | 0 <= i < j < |t| ensures t[i].name != t[j].name {
      assert t[i].name[0] != t[j].name[0];
    }
  }

  lemma AbcPermutation(s: seq<Entry>, t: seq<Entry>)
    requires s == [Entry("b", Regular), Entry("a", Regular), Entry("c", Regular)]
    requires t == [Entry("a", Regular), Entry("b", Regular), Entry("c", Regular)]
    ensures multiset(s) == multiset(t)
  {
    assert s == [t[1]] + [t[0]] + [t[2]] && t == [t[0]] + [t[1]] + [t[2]];
  }
}
