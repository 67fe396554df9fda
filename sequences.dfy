/** Element-wise maps over sequences and the fact that reordering the input of a map only
    reorders its output. */
module Sequences {
  function Map<A, B>(f: A -> B, s: seq<A>): (r: seq<B>)
    ensures |r| == |s|
    ensures forall i :: 0 <= i < |s| ==> r[i] == f(s[i])
  {
    seq(|s|, i requires 0 <= i < |s| => f(s[i]))
  }

  lemma MapAppend<A, B>(f: A -> B, a: seq<A>, b: seq<A>)
    ensures Map(f, a + b) == Map(f, a) + Map(f, b)
  {
  }

  /** Removing the element at `j` of `b`, which is the first element of `a`, keeps the two
      sequences permutations of each other. */
  lemma RemoveFromPermutation<A>(a: seq<A>, b: seq<A>, j: nat)
    requires a != [] && j < |b| && b[j] == a[0]
    requires multiset(a) == multiset(b)
    ensures multiset(a[1..]) == multiset(b[..j] + b[j + 1..])
  {
    assert a == [a[0]] + a[1..];
    assert b == b[..j] + [b[j]] + b[j + 1..];
    calc {
      multiset(a[1..]);
      multiset(a) - multiset{a[0]};
      multiset(b) - multiset{b[j]};
      multiset(b[..j] + b[j + 1..]);
    }
  }

  lemma SplitAt<A>(b: seq<A>, j: nat)
    requires j < |b|
    ensures b == b[..j] + ([b[j]] + b[j + 1..])
  {
  }

  /** The image of `b` is the image of `b[j]` together with the image of the rest of `b`. */
  lemma MapRemove<A, B>(f: A -> B, b: seq<A>, j: nat)
    requires j < |b|
    ensures multiset(Map(f, b)) == multiset{f(b[j])} + multiset(Map(f, b[..j] + b[j + 1..]))
  {
    var pre, post := b[..j], b[j + 1..];
    SplitAt(b, j);
    MapAppend(f, pre, [b[j]] + post);
    MapAppend(f, [b[j]], post);
    MapAppend(f, pre, post);
    assert Map(f, [b[j]]) == [f(b[j])];
  }

  /** The inductive step: if the images of `a` without its head and of `b` without the
      matching element agree, so do the images of `a` and `b`. */
  lemma MapPermutationStep<A, B>(f: A -> B, a: seq<A>, b: seq<A>, j: nat)
    requires a != [] && j < |b| && b[j] == a[0]
    requires multiset(Map(f, a[1..])) == multiset(Map(f, b[..j] + b[j + 1..]))
    ensures multiset(Map(f, a)) == multiset(Map(f, b))
  {
    var ma, mb := multiset(Map(f, a)), multiset(Map(f, b));
    var ma1, mb1 := multiset(Map(f, a[1..])), multiset(Map(f, b[..j] + b[j + 1..]));
    MapRemove(f, b, j);
    MapCons(f, a);
    assert mb == multiset{f(b[j])} + mb1;
    assert ma == multiset{f(a[0])} + ma1;
  }

  lemma MapCons<A, B>(f: A -> B, a: seq<A>)
    requires a != []
    ensures multiset(Map(f, a)) == multiset{f(a[0])} + multiset(Map(f, a[1..]))
  {
    assert Map(f, a) == [f(a[0])] + Map(f, a[1..]);
  }

  /** Mapping two permutations of each other gives two permutations of each other. */
  lemma {:induction false} MapPermutation<A, B>(f: A -> B, a: seq<A>, b: seq<A>)
    requires multiset(a) == multiset(b)
    ensures multiset(Map(f, a)) == multiset(Map(f, b))
    decreases |a|
  {
    if a == [] {
      assert |b| == |multiset(b)| == 0;
    } else {
      assert a[0] in multiset(b);
      var j :| 0 <= j < |b| && b[j] == a[0];
      RemoveFromPermutation(a, b, j);
      MapPermutation(f, a[1..], b[..j] + b[j + 1..]);
      MapPermutationStep(f, a, b, j);
    }
  }
}
