/** Decompositions of a non-empty sequence, proved once in a small context. */
module Seqs {

  lemma {:induction false} LastSplit<T>(s: seq<T>)
    requires s != []
    ensures s[..|s| - 1] + [s[|s| - 1]] == s
  {
  }

  lemma {:induction false} HeadSplit<T>(s: seq<T>)
    requires s != []
    ensures [s[0]] + s[1..] == s
  {
  }

  /** The count of x in s is its count before the last element, plus one if the last element is x. */
  lemma {:induction false} MultisetSnoc<T>(s: seq<T>, x: T)
    requires s != []
    ensures multiset(s)[x] == multiset(s[..|s| - 1])[x] + (if s[|s| - 1] == x then 1 else 0)
  {
    LastSplit(s);
    assert multiset(s) == multiset(s[..|s| - 1]) + multiset{s[|s| - 1]};
  }
}
