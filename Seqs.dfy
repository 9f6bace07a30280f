/**
 * Small facts about sequence indexing, proved once for any element type so that the
 * proofs about paths, configurations and presets can use them without unfolding the
 * elements.
 */
module Seqs {

  /** Past its head, a sequence with one element put in front is the old sequence shifted by one. */
  lemma ConsIndex<T>(x: T, xs: seq<T>)
    ensures forall i :: 1 <= i <= |xs| ==> ([x] + xs)[i] == xs[i - 1]
  {
  }

  /** A sequence with one element put at the end keeps its old elements in place. */
  lemma SnocIndex<T>(xs: seq<T>, x: T)
    ensures forall i :: 0 <= i < |xs| ==> (xs + [x])[i] == xs[i]
    ensures (xs + [x])[|xs|] == x
  {
  }

  /** A non-empty sequence is its front followed by its last element. */
  lemma InitLast<T>(xs: seq<T>)
    requires xs != []
    ensures xs == xs[..|xs| - 1] + [xs[|xs| - 1]]
    ensures forall i :: 0 <= i < |xs| - 1 ==> xs[..|xs| - 1][i] == xs[i]
  {
  }

  /** Replacing the head of a sequence is putting the new head in front of its tail. */
  lemma UpdateHead<T>(xs: seq<T>, x: T)
    requires xs != []
    ensures xs[0 := x] == [x] + xs[1..]
  {
  }

  /** Three singletons, with an empty sequence among them, make a sequence of three. */
  lemma ThreeSingletons<T>(a: T, b: T, c: T)
    ensures [a] + [b] + [] + [c] == [a, b, c]
  {
  }

  /** An element missing from a sequence is missing from every slice of it. */
  lemma NotInSlice<T>(s: seq<T>, i: nat, j: nat, c: T)
    requires i <= j <= |s| && c !in s
    ensures c !in s[i..j]
  {
    assert forall k :: 0 <= k < j - i ==> s[i..j][k] == s[i + k];
  }

  /** Concatenation is associative. */
  lemma ConcatAssoc<T>(x: seq<T>, y: seq<T>, z: seq<T>)
    ensures x + (y + z) == (x + y) + z
  {
  }

  /** Dropping the last element of a + b, b non-empty, drops it from b. */
  lemma ConcatInitLast<T>(a: seq<T>, b: seq<T>)
    requires b != []
    ensures (a + b)[..|a + b| - 1] == a + b[..|b| - 1]
    ensures (a + b)[|a + b| - 1] == b[|b| - 1]
  {
  }
}
