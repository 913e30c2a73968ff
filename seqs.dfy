/**
 * General facts about sequences that the proofs about statement lists use,
 * stated for any element type so that the solver reasons about them without
 * the syntax tree's many node kinds.
 */
module Seqs {

  /** The last element of a + b, and what precedes it, when b is not empty. */
  lemma SnocSlice<T>(a: seq<T>, b: seq<T>)
    requires |b| > 0
    ensures (a + b)[..|a + b| - 1] == a + b[..|b| - 1]
    ensures (a + b)[|a + b| - 1] == b[|b| - 1]
  {
  }

  /** A sequence is its prefix before i, its element at i and its suffix after i. */
  lemma CutAt<T>(s: seq<T>, i: nat)
    requires i < |s|
    ensures s == (s[..i] + [s[i]]) + s[i + 1..]
  {
  }

  lemma Assoc<T>(p: seq<T>, q: seq<T>, r: seq<T>)
    ensures (p + q) + r == p + (q + r)
  {
  }

  /** The prefix of a one-element sequence is empty. */
  lemma SingleSlice<T>(x: T)
    ensures [x][..0] == []
  {
  }

  /** The two cuts of a three-part concatenation at the seams. */
  lemma SplitThree<T>(a: seq<T>, b: seq<T>, c: seq<T>)
    ensures (a + b + c)[..|a| + |b|] == a + b && (a + b + c)[|a| + |b|..] == c
    ensures (a + b) + [] + c == a + b + c
  {
  }

  /** The multiset of a three-part concatenation, and of a sequence cut in two. */
  lemma MultisetThree<T>(a: seq<T>, b: seq<T>, c: seq<T>, s: seq<T>, i: nat)
    requires i <= |s|
    ensures multiset(a + b + c) == multiset(a) + multiset(b) + multiset(c)
    ensures multiset(s) == multiset(s[..i]) + multiset(s[i..])
  {
    assert s == s[..i] + s[i..];
  }

  /** Moving x from after n to after l, in a list cut into pieces around it. */
  lemma MoveOne<T>(a: seq<T>, l: seq<T>, n: seq<T>, x: T, b: seq<T>)
    ensures a + (l + [x]) + (n + []) + b == (a + l) + [x] + n + b
    ensures a + (l + []) + (n + [x]) + b == a + l + n + ([x] + b)
  {
  }
}
