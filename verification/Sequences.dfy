/** The elements of a sequence, and facts about concatenation and slices, stated one at a time so that proofs
    name what they use. */
module Sequences {

  ghost function Elements<T>(s: seq<T>): set<T> {
    set x | x in s
  }

  lemma AppendAssoc<T>(a: seq<T>, b: seq<T>, c: seq<T>)
    ensures (a + b) + c == a + (b + c)
  {
  }

  lemma AppendNone<T>(a: seq<T>)
    ensures a + [] == a
  {
  }

  lemma SplitLast<T>(s: seq<T>, init: seq<T>, last: T)
    requires s != [] && init == s[..|s| - 1] && last == s[|s| - 1]
    ensures s == init + [last]
  {
  }

  lemma TakeAppend<T>(a: seq<T>, b: seq<T>, i: nat)
    requires i <= |a|
    ensures (a + b)[..i] == a[..i]
  {
  }

  lemma DropAppend<T>(a: seq<T>, b: seq<T>, i: nat)
    requires i <= |a|
    ensures (a + b)[i..] == a[i..] + b
  {
  }

  lemma AppendCancel<T>(a: seq<T>, b: seq<T>, c: seq<T>)
    requires a + b == a + c
    ensures b == c
  {
    assert (a + b)[|a|..] == b && (a + c)[|a|..] == c;
  }

  /** Element for element, `a` is related to `b`. */
  ghost predicate Pairwise<A, B>(related: (A, B) -> bool, a: seq<A>, b: seq<B>) {
    |a| == |b| && forall i :: 0 <= i < |a| ==> related(a[i], b[i])
  }

  lemma PairwiseAppend<A, B>(related: (A, B) -> bool, a: seq<A>, b: seq<B>, c: seq<A>, d: seq<B>)
    requires Pairwise(related, a, b) && Pairwise(related, c, d)
    ensures Pairwise(related, a + c, b + d)
  {
  }

  lemma PairwiseInit<A, B>(related: (A, B) -> bool, a: seq<A>, b: seq<B>)
    requires Pairwise(related, a, b) && a != []
    ensures Pairwise(related, a[..|a| - 1], b[..|b| - 1]) && related(a[|a| - 1], b[|b| - 1])
  {
  }

  lemma TakeDrop<T>(s: seq<T>, i: nat)
    requires i <= |s|
    ensures s[..i] + s[i..] == s
  {
  }

  lemma TakeMore<T>(s: seq<T>, i: nat, more: seq<T>, j: nat)
    requires j == i + |more| <= |s| && more + s[j..] == s[i..]
    ensures s[..i] + more == s[..j]
  {
    assert more == s[i..][..|more|];
  }

  lemma DropDrop<T>(s: seq<T>, i: nat, rest: seq<T>)
    requires i < |s| && rest == s[i..]
    ensures rest[0] == s[i] && rest[1..] == s[i + 1..]
  {
  }

  /** Reading one more element onto `read` leaves what is read in the end the same. */
  lemma ReadOne<T>(read: seq<T>, x: T)
    ensures forall more: seq<T> :: read + ([x] + more) == read + [x] + more
  {
  }
}
