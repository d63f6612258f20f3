/**
 * The JavaScript string operations the program uses: `s.includes(pat)`
 * (substring containment, true for an empty pattern), `s.replace(pat, rep)`
 * with a string pattern and a replacement free of `$` patterns (only the
 * FIRST occurrence is replaced) and `s.endsWith(suffix)`.
 */
module Strings {
  import opened Collections

  /** `pat` occurs in `s` starting at index `i`. */
  predicate OccursAt(s: string, pat: string, i: nat) {
    i + |pat| <= |s| && s[i..i + |pat|] == pat
  }

  /** First index at or after `from` where `pat` occurs in `s`. */
  function IndexOfFrom(s: string, pat: string, from: nat): (r: Option<nat>)
    decreases |s| - from
    ensures r.Some? ==> from <= r.value && OccursAt(s, pat, r.value)
    ensures r.Some? ==> forall j :: from <= j < r.value ==> !OccursAt(s, pat, j)
    ensures r.None? ==> forall j :: from <= j ==> !OccursAt(s, pat, j)
  {
    if from + |pat| > |s| then None
    else if s[from..from + |pat|] == pat then Some(from)
    else IndexOfFrom(s, pat, from + 1)
  }

  /** `s.indexOf(pat)`: the first index where `pat` occurs, if any. */
  function IndexOf(s: string, pat: string): Option<nat> {
    IndexOfFrom(s, pat, 0)
  }

  /** `s.includes(pat)`. */
  predicate Includes(s: string, pat: string) {
    IndexOf(s, pat).Some?
  }

  /** `Includes` holds exactly when the pattern occurs somewhere. */
  lemma IncludesIff(s: string, pat: string)
    ensures Includes(s, pat) <==> exists i :: OccursAt(s, pat, i)
  {
    if exists i :: OccursAt(s, pat, i) {
      var i :| OccursAt(s, pat, i);
      assert IndexOfFrom(s, pat, 0).Some?;
    }
  }

  /** A string includes every one of its prefixes, itself among them. */
  lemma IncludesPrefix(s: string, pre: string)
    requires |pre| <= |s| && s[..|pre|] == pre
    ensures Includes(s, pre)
  {
    assert OccursAt(s, pre, 0);
  }

  /**
   * `s.replace(pat, rep)` for a string pattern: only the first occurrence is
   * replaced. A `$` in the replacement would start a replacement pattern
   * (`$&`, `$$`, ...), which is not modelled; the program only removes.
   */
  function ReplaceFirst(s: string, pat: string, rep: string): (r: string)
    requires '$' !in rep
    ensures (forall i: nat :: !OccursAt(s, pat, i)) ==> r == s
    ensures forall i: nat :: OccursAt(s, pat, i) && (forall j: nat :: j < i ==> !OccursAt(s, pat, j)) ==>
      r == s[..i] + rep + s[i + |pat|..]
  {
    match IndexOf(s, pat)
    case None => s
    case Some(k) =>
      assert forall i: nat :: OccursAt(s, pat, i) && (forall j: nat :: j < i ==> !OccursAt(s, pat, j)) ==> i == k;
      s[..k] + rep + s[k + |pat|..]
  }

  /** Removing the first occurrence of a prefix strips exactly that prefix. */
  lemma {:induction false} ReplaceFirstPrefix(s: string, pre: string)
    requires |pre| <= |s| && s[..|pre|] == pre
    ensures ReplaceFirst(s, pre, "") == s[|pre|..]
  {
    assert OccursAt(s, pre, 0);
  }

  /** Removing a pattern that does not occur leaves the string as it is. */
  lemma {:induction false} ReplaceFirstAbsent(s: string, pat: string)
    requires forall i :: !OccursAt(s, pat, i)
    ensures ReplaceFirst(s, pat, "") == s
  {
  }

  /** `s.endsWith(suffix)`. */
  predicate EndsWith(s: string, suffix: string) {
    |suffix| <= |s| && s[|s| - |suffix|..] == suffix
  }
}
