/**
 * Small facts about sequences that the proofs elsewhere use as stepping
 * stones, stated once so that a proof about text does not have to rebuild
 * them by extensionality in a crowded context.
 */
module Seqs {

  /** A one-element sequence followed by nothing. */
  lemma ConsNil<T>(a: T)
    ensures [a] + [] == [a]
  {
  }

  /** Two one-element sequences make the two-element one. */
  lemma ConsPair<T>(a: T, b: T)
    ensures [a] + [b] == [a, b]
  {
  }

  /** A sequence that ends with a non-empty suffix ends with the suffix's last element. */
  lemma SuffixLast<T>(j: seq<T>, last: seq<T>)
    requires 0 < |last| <= |j| && j[|j| - |last|..] == last
    ensures j[|j| - 1] == last[|last| - 1]
  {
  }

  /** Where the last element and the rest of an append come from. */
  lemma LastOfAppend<T>(front: seq<T>, rest: seq<T>)
    requires |rest| >= 1
    ensures var w := front + rest;
      w[|w| - 1] == rest[|rest| - 1] && w[..|w| - 1] == front + rest[..|rest| - 1]
  {
  }

  /** A non-empty sequence is its front followed by its last element. */
  lemma SplitLast<T>(xs: seq<T>)
    requires |xs| >= 1
    ensures xs == xs[..|xs| - 1] + [xs[|xs| - 1]]
  {
  }

  /** Appending nothing changes nothing. */
  lemma AppendNil<T>(xs: seq<T>)
    ensures xs + [] == xs
  {
  }

  /** A sequence is what comes before position `i`, the element there, and what follows. */
  lemma Around<T>(s: seq<T>, i: nat)
    requires i < |s|
    ensures s == s[..i] + [s[i]] + s[i + 1..]
  {
  }

  /** Appending is associative. */
  lemma AppendAssoc<T>(a: seq<T>, b: seq<T>, c: seq<T>)
    ensures (a + b) + c == a + (b + c)
  {
  }

  /** Taking one more element appends it. */
  lemma TakeSnoc<T>(s: seq<T>, i: nat)
    requires i < |s|
    ensures s[..i + 1] == s[..i] + [s[i]]
  {
  }

  /** Taking every element gives the sequence. */
  lemma TakeAll<T>(s: seq<T>)
    ensures s[..|s|] == s
  {
  }

  /** Element `i` of the tail is element `i + 1` of the sequence. */
  lemma TailIndex<T>(s: seq<T>, i: nat)
    requires i + 1 < |s|
    ensures s[1..][i] == s[i + 1]
  {
  }

  /** The head and tail of a sequence built by putting `x` in front. */
  lemma ConsTail<T>(x: T, xs: seq<T>)
    ensures ([x] + xs)[0] == x && ([x] + xs)[1..] == xs
  {
  }
}
