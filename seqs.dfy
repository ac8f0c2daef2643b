/**
 * Facts about sequences that do not depend on what the elements are: slicing
 * and concatenation, multisets, and mapping a function over a sequence.  They
 * are stated for any element type so that proofs about lists of symbols and
 * rows can use them without looking inside the elements.
 */
module Seqs {

  /** `f` applied to every element, in order. */
  function MapSeq<A, B>(f: A -> B, xs: seq<A>): (ys: seq<B>)
    ensures |ys| == |xs|
    ensures forall k :: 0 <= k < |xs| ==> ys[k] == f(xs[k])
  {
    seq(|xs|, k requires 0 <= k < |xs| => f(xs[k]))
  }

  /** Mapping distributes over concatenation. */
  lemma MapSeqAppend<A, B>(f: A -> B, xs: seq<A>, ys: seq<A>)
    ensures MapSeq(f, xs + ys) == MapSeq(f, xs) + MapSeq(f, ys)
  {
    var a, b, c := MapSeq(f, xs + ys), MapSeq(f, xs), MapSeq(f, ys);
    forall k | 0 <= k < |a| ensures a[k] == (b + c)[k] {
      if k < |xs| {
        assert (xs + ys)[k] == xs[k];
      } else {
        assert (xs + ys)[k] == ys[k - |xs|];
      }
    }
  }

  /** Mapping commutes with taking a prefix. */
  lemma MapSeqPrefix<A, B>(f: A -> B, xs: seq<A>, i: nat)
    requires i <= |xs|
    ensures MapSeq(f, xs[..i]) == MapSeq(f, xs)[..i]
  {
    var a, b := MapSeq(f, xs[..i]), MapSeq(f, xs);
    forall k | 0 <= k < i ensures a[k] == b[k] {
      assert xs[..i][k] == xs[k];
    }
  }


  /** A sequence is its prefix followed by the rest.  Stated once for any
      element type: the same equation written inline about rows costs the
      solver several times as much. */
  lemma TakeDrop<T>(s: seq<T>, i: nat)
    requires i <= |s|
    ensures s[..i] + s[i..] == s
  {
  }

  /** Concatenation is associative (see TakeDrop on why it is a lemma). */
  lemma AppendAssoc<T>(a: seq<T>, b: seq<T>, c: seq<T>)
    ensures (a + b) + c == a + (b + c)
  {
  }

  /** The prefix of full length is the whole sequence (see TakeDrop). */
  lemma TakeAll<T>(s: seq<T>)
    ensures s[..|s|] == s
  {
  }

  /** Taking a prefix of a concatenation that reaches into the second part. */
  lemma AppendTake<T>(a: seq<T>, b: seq<T>, n: nat)
    requires n <= |b|
    ensures (a + b)[..|a| + n] == a + b[..n]
  {
  }


  /** The tail of a concatenation whose first part is non-empty. */
  lemma AppendTail<T>(a: seq<T>, b: seq<T>)
    requires a != []
    ensures (a + b)[0] == a[0] && (a + b)[1..] == a[1..] + b
  {
  }

  /** The last element of a concatenation whose second part is non-empty. */
  lemma AppendLast<T>(a: seq<T>, b: seq<T>)
    requires b != []
    ensures (a + b)[|a| + |b| - 1] == b[|b| - 1]
  {
  }





  /** A non-empty sequence is its head followed by its tail, and the tail
      holds one occurrence of the head less. */
  lemma HeadTail<T>(s: seq<T>)
    requires s != []
    ensures s == [s[0]] + s[1..]
    ensures multiset(s[1..]) == multiset(s) - multiset{s[0]}
  {
    assert s == [s[0]] + s[1..];
    assert multiset(s) == multiset{s[0]} + multiset(s[1..]);
  }

  /** Removing the element at `j` removes one occurrence of it. */
  lemma MultisetRemove<T>(s: seq<T>, j: nat)
    requires j < |s|
    ensures multiset(s[..j] + s[j + 1..]) == multiset(s) - multiset{s[j]}
  {
    MultisetSplitAt(s, j);
  }

  /** A sequence holds the element at `j` once more than the rest does. */
  lemma MultisetSplitAt<T>(s: seq<T>, j: nat)
    requires j < |s|
    ensures multiset(s) == multiset(s[..j] + s[j + 1..]) + multiset{s[j]}
  {
    assert s == s[..j] + [s[j]] + s[j + 1..];
    assert multiset(s) == multiset(s[..j]) + multiset{s[j]} + multiset(s[j + 1..]);
  }

  /** A position at which an element of a sequence occurs. */
  lemma IndexOf<T>(s: seq<T>, x: T) returns (j: nat)
    requires x in multiset(s)
    ensures j < |s| && s[j] == x
  {
    j :| 0 <= j < |s| && s[j] == x;
  }

  /** Removing one occurrence of the same element from two sequences with
      equal multisets leaves equal multisets. */
  lemma RemoveMatching<T>(s1: seq<T>, i: nat, s2: seq<T>, j: nat)
    requires i < |s1| && j < |s2| && s1[i] == s2[j]
    requires multiset(s1) == multiset(s2)
    ensures multiset(s1[..i] + s1[i + 1..]) == multiset(s2[..j] + s2[j + 1..])
  {
    MultisetRemove(s1, i);
    MultisetRemove(s2, j);
  }


  /** Mapping a sequence with an element removed. */
  lemma MapSeqRemove<A, B>(f: A -> B, t: seq<A>, j: nat)
    requires j < |t|
    ensures MapSeq(f, t[..j] + t[j + 1..]) == MapSeq(f, t)[..j] + MapSeq(f, t)[j + 1..]
  {
    var u, m := t[..j] + t[j + 1..], MapSeq(f, t);
    var c, d := MapSeq(f, u), m[..j] + m[j + 1..];
    assert |c| == |d|;
    forall k | 0 <= k < |c| ensures c[k] == d[k] {
      if k < j {
        assert u[k] == t[k] && d[k] == m[k];
      } else {
        assert u[k] == t[k + 1] && d[k] == m[k + 1];
      }
    }
  }

  /** Putting back one element with the same image into each of two
      sequences whose images agree as multisets keeps them agreeing. */
  lemma MapSeqRestore<A, B>(f: A -> B, t1: seq<A>, i: nat, t2: seq<A>, j: nat)
    requires i < |t1| && j < |t2| && t1[i] == t2[j]
    requires multiset(MapSeq(f, t1[..i] + t1[i + 1..])) == multiset(MapSeq(f, t2[..j] + t2[j + 1..]))
    ensures multiset(MapSeq(f, t1)) == multiset(MapSeq(f, t2))
  {
    MapSeqRemove(f, t1, i);
    MapSeqRemove(f, t2, j);
    MultisetSplitAt(MapSeq(f, t1), i);
    MultisetSplitAt(MapSeq(f, t2), j);
  }

  /** Mapping sequences with the same elements gives images with the same
      elements. */
  lemma {:induction false} MapSeqMultiset<A, B>(f: A -> B, t1: seq<A>, t2: seq<A>)
    requires multiset(t1) == multiset(t2)
    ensures multiset(MapSeq(f, t1)) == multiset(MapSeq(f, t2))
    decreases |t1|
  {
    if t1 == [] {
      assert |t2| == |multiset(t2)| == 0;
    } else {
      var j := IndexOf(t2, t1[0]);
      RemoveMatching(t1, 0, t2, j);
      var r1, r2 := t1[..0] + t1[1..], t2[..j] + t2[j + 1..];
      assert |r1| < |t1|;
      MapSeqMultiset(f, r1, r2);
      MapSeqRestore(f, t1, 0, t2, j);
    }
  }
}
