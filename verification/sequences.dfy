/** Order facts about sequences: the subsequence relation and distinctness. */
module Sequences {

  /** `a` is `b` with some elements dropped and the rest kept in their relative order.
      Defined from the back, matching how jobs are appended at the end of the list. */
  predicate Subseq<T(==)>(a: seq<T>, b: seq<T>)
    decreases |b|
  {
    if |b| == 0 then |a| == 0
    else
      || Subseq(a, b[..|b| - 1])
      || (|a| > 0 && a[|a| - 1] == b[|b| - 1] && Subseq(a[..|a| - 1], b[..|b| - 1]))
  }

  /** No element occurs twice. */
  predicate Distinct<T(==)>(s: seq<T>) {
    forall i, j :: 0 <= i < j < |s| ==> s[i] != s[j]
  }

  /** Appending the same element to both sides keeps the relation. */
  lemma SubseqAppend<T>(a: seq<T>, b: seq<T>, x: T)
    requires Subseq(a, b)
    ensures Subseq(a + [x], b + [x])
  {
  }

  lemma {:induction false} SubseqTrans<T>(a: seq<T>, b: seq<T>, c: seq<T>)
    requires Subseq(a, b) && Subseq(b, c)
    ensures Subseq(a, c)
    decreases |c|
  {
    if |c| == 0 {
    } else if Subseq(b, c[..|c| - 1]) {
      SubseqTrans(a, b, c[..|c| - 1]);
    } else {
      assert |b| > 0 && b[|b| - 1] == c[|c| - 1] && Subseq(b[..|b| - 1], c[..|c| - 1]);
      if Subseq(a, b[..|b| - 1]) {
        SubseqTrans(a, b[..|b| - 1], c[..|c| - 1]);
      } else {
        SubseqTrans(a[..|a| - 1], b[..|b| - 1], c[..|c| - 1]);
      }
    }
  }

  /** Everything in a subsequence occurs in the whole sequence. */
  lemma {:induction false} SubseqMembers<T>(a: seq<T>, b: seq<T>)
    requires Subseq(a, b)
    ensures forall x :: x in a ==> x in b
    decreases |b|
  {
    if |b| > 0 {
      if Subseq(a, b[..|b| - 1]) {
        SubseqMembers(a, b[..|b| - 1]);
      } else {
        SubseqMembers(a[..|a| - 1], b[..|b| - 1]);
        assert a == a[..|a| - 1] + [a[|a| - 1]];
      }
    }
  }

  /** A subsequence of a sequence without repetitions has none either. */
  lemma {:induction false} SubseqDistinct<T>(a: seq<T>, b: seq<T>)
    requires Subseq(a, b) && Distinct(b)
    ensures Distinct(a)
    decreases |b|
  {
    if |b| > 0 {
      var b' := b[..|b| - 1];
      if Subseq(a, b') {
        SubseqDistinct(a, b');
      } else {
        var a' := a[..|a| - 1];
        SubseqDistinct(a', b');
        SubseqMembers(a', b');
        assert b[|b| - 1] !in b';
        assert a == a' + [a[|a| - 1]];
      }
    }
  }
}
