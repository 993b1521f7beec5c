/** List operations the core uses: java.util.List.indexOf, and the
    order-preserving selection that a stream filter performs. */
module Sequences {

  /** List.indexOf: the least index holding x, or -1 when x is absent. */
  function IndexOf(s: seq<string>, x: string): (i: int)
    ensures -1 <= i < |s|
    ensures 0 <= i ==> s[i] == x
    ensures forall k :: 0 <= k < |s| && (i < 0 || k < i) ==> s[k] != x
  {
    if s == [] then -1
    else if s[0] == x then 0
    else
      var j := IndexOf(s[1..], x);
      if j < 0 then -1
      else j + 1
  }

  /** r is obtained from s by deleting elements, keeping the order of the
      rest. */
  ghost predicate SubsequenceOf<T>(r: seq<T>, s: seq<T>)
    decreases |s|
  {
    if r == [] then true
    else if s == [] then false
    else (r[0] == s[0] && SubsequenceOf(r[1..], s[1..])) || SubsequenceOf(r, s[1..])
  }

  /** A subsequence of the tail is a subsequence of the whole list. */
  lemma SubsequenceSkip<T>(r: seq<T>, s: seq<T>)
    requires s != [] && SubsequenceOf(r, s[1..])
    ensures SubsequenceOf(r, s)
  {
  }
}
