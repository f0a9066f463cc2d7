/** String helpers with Python's meaning: substring test (`p in s`) and
    single-character replacement (`s.replace(a, b)` for one-character `a`, `b`). */
module Strings {

  /** `p` occurs in `s` starting at offset `k`. */
  predicate OccursAt(p: string, s: string, k: int)
  {
    0 <= k && k + |p| <= |s| && s[k..k + |p|] == p
  }

  /** Python's substring test `p in s`. */
  predicate Contains(s: string, p: string)
  {
    exists k :: 0 <= k <= |s| - |p| && OccursAt(p, s, k)
  }

  /** The substring test needs room for `p` in `s`; the empty string and `s`
      itself always occur in `s`. */
  lemma ContainsBasics(s: string, p: string)
    ensures Contains(s, p) ==> |p| <= |s|
    ensures p == [] || p == s ==> Contains(s, p)
  {
    if p == [] || p == s {
      assert OccursAt(p, s, 0);
    }
  }

  /** Python's `s.replace(from, to)` for one-character `from` and `to`:
      every occurrence is replaced, nothing else changes. */
  function ReplaceChar(s: string, from: char, to: char): (r: string)
    ensures |r| == |s|
    ensures forall i :: 0 <= i < |s| ==> r[i] == (if s[i] == from then to else s[i])
    ensures from != to ==> from !in r
  {
    if s == [] then []
    else [if s[0] == from then to else s[0]] + ReplaceChar(s[1..], from, to)
  }
}
