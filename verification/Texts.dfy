/** Searching in strings. */
module Texts {

  predicate MatchesAt(text: string, pat: string, p: nat) {
    p + |pat| <= |text| && text[p..p + |pat|] == pat
  }

  /** text.find(pat, from, to): the first match inside text[from..to], or -1. */
  function Find(text: string, pat: string, from: nat, to: nat): (r: int)
    requires to <= |text|
    ensures r == -1 || (from <= r && r + |pat| <= to && MatchesAt(text, pat, r))
    ensures forall p | from <= p && p + |pat| <= to && (r < 0 || p < r) :: !MatchesAt(text, pat, p)
    decreases if from <= to then to - from + 1 else 0
  {
    if from + |pat| > to then -1
    else if MatchesAt(text, pat, from) then from
    else if from == to then -1
    else Find(text, pat, from + 1, to)
  }
}
