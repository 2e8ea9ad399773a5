// What several modules say about sequences.
module Sequences {

  function Reverse<T>(s: seq<T>): seq<T> { seq(|s|, k requires 0 <= k < |s| => s[|s| - 1 - k]) }

  lemma ReverseIs<T>(s: seq<T>)
    ensures |Reverse(s)| == |s| && forall i | 0 <= i < |s| :: Reverse(s)[i] == s[|s| - 1 - i]
  {}

  lemma ReverseTwice<T>(s: seq<T>)
    ensures Reverse(Reverse(s)) == s
  {}

  lemma ReverseJoins<T>(a: seq<T>, b: seq<T>)
    ensures Reverse(a + b) == Reverse(b) + Reverse(a)
  {}
}
