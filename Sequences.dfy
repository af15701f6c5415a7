/** Generic facts about sequences and multisets that the proofs elsewhere cite step by step. */
module Sequences {

  /** Concatenation regrouped. */
  lemma AppendAssoc<T>(a: seq<T>, b: seq<T>, c: seq<T>)
    ensures a + (b + c) == (a + b) + c
  {
  }

  /** Index `i` moved from the rest of `s` to its visited prefix. */
  lemma SliceStep<T>(s: seq<T>, i: int)
    requires 0 <= i < |s|
    ensures s[..i + 1] == s[..i] + [s[i]]
    ensures s[i..] == [s[i]] + s[i + 1..]
  {
  }

  /** A common part `c` cancels from both sides of a multiset equation. */
  lemma MultisetCancel<T>(a: multiset<T>, b: multiset<T>, c: multiset<T>, d: multiset<T>)
    requires a + (b + c) == d + c
    ensures a + b == d
  {
    assert a + b == (a + (b + c)) - c;
  }
}
