/**
 * The two C library searches the filter relies on: strstr (section 7.24.5.7 of
 * ISO C11), and the GNU extension strcasestr restricted to ASCII case folding.
 * Each char of a string stands for one byte of a NUL-terminated C string.
 */
module CStrings {
  import opened Wrappers

  /** `p` occurs in `s` as a contiguous block starting at index `k`. */
  predicate OccursAt(s: string, p: string, k: int)
  {
    0 <= k && k + |p| <= |s| && s[k..k + |p|] == p
  }

  /** `p` is a contiguous substring of `s`. */
  ghost predicate Contains(s: string, p: string)
  {
    exists k :: OccursAt(s, p, k)
  }

  /** First occurrence of `p` in `s` at index `k` or later. */
  function FindFrom(s: string, p: string, k: nat): (r: Option<nat>)
    ensures r.Some? ==> k <= r.value && OccursAt(s, p, r.value)
    ensures r.Some? ==> forall j :: k <= j < r.value ==> !OccursAt(s, p, j)
    ensures r.None? ==> forall j :: k <= j ==> !OccursAt(s, p, j)
    decreases |s| + 1 - k
  {
    if k + |p| > |s| then None
    else if s[k..k + |p|] == p then Some(k)
    else FindFrom(s, p, k + 1)
  }

  /**
   * strstr: the index of the first occurrence of `p` in `s`, or None for
   * the NULL return. The empty pattern is found at index 0.
   */
  function StrStr(s: string, p: string): (r: Option<nat>)
    ensures r.Some? <==> Contains(s, p)
    ensures r.Some? ==> OccursAt(s, p, r.value) && forall j :: 0 <= j < r.value ==> !OccursAt(s, p, j)
  {
    FindFrom(s, p, 0)
  }

  /** ASCII lower-casing of one byte, as tolower in the C locale. */
  function ToLower(c: char): (l: char)
  {
    if 'A' <= c <= 'Z' then (c as int - 'A' as int + 'a' as int) as char else c
  }

  /** ASCII lower-casing of every byte of `s`. */
  function Lower(s: string): (r: string)
    ensures |r| == |s|
    ensures forall i :: 0 <= i < |s| ==> r[i] == ToLower(s[i])
  {
    seq(|s|, i requires 0 <= i < |s| => ToLower(s[i]))
  }

  /** `p` matches `s` at index `k` when bytes are compared ignoring ASCII case. */
  predicate CaseOccursAt(s: string, p: string, k: int)
  {
    0 <= k && k + |p| <= |s| && forall j :: 0 <= j < |p| ==> ToLower(s[k + j]) == ToLower(p[j])
  }

  lemma CaseOccursAtLower(s: string, p: string, k: int)
    ensures CaseOccursAt(s, p, k) <==> OccursAt(Lower(s), Lower(p), k)
  {
  }

  /**
   * strcasestr: the index of the first position where `p` matches `s`
   * ignoring ASCII case, or None for the NULL return.
   */
  function StrCaseStr(s: string, p: string): (r: Option<nat>)
    ensures r.Some? <==> exists k :: CaseOccursAt(s, p, k)
    ensures r.Some? ==> CaseOccursAt(s, p, r.value) && forall j :: 0 <= j < r.value ==> !CaseOccursAt(s, p, j)
  {
    var r := StrStr(Lower(s), Lower(p));
    forall k ensures CaseOccursAt(s, p, k) <==> OccursAt(Lower(s), Lower(p), k) {
      CaseOccursAtLower(s, p, k);
    }
    r
  }

  /** An occurrence is also an occurrence once both strings are lower-cased. */
  lemma OccursAtLower(s: string, p: string, k: int)
    requires OccursAt(s, p, k)
    ensures OccursAt(Lower(s), Lower(p), k)
  {
  }

  /** The empty pattern occurs in every string (strstr returns the haystack). */
  lemma EmptyPatternFound(s: string)
    ensures StrStr(s, []) == Some(0)
  {
  }
}
