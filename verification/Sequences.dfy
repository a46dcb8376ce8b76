/** Sequences in which nothing stands twice. */
module Sequences {

  ghost predicate NoneTwice<T>(s: seq<T>) {
    forall i, j | 0 <= i < j < |s| :: s[i] != s[j]
  }

  /** Different elements that all stand in `b` are not more than its length. */
  lemma {:induction false} DistinctFit<T>(a: seq<T>, b: seq<T>)
    requires NoneTwice(a) && forall x | x in a :: x in b
    ensures |a| <= |b|
    decreases |a|
  {
    if a != [] {
      assert a[0] in a && a[0] in b;
      var i :| 0 <= i < |b| && b[i] == a[0];
      var b' := b[..i] + b[i + 1..];
      forall x | x in a[1..] ensures x in b' {
        assert x in a && x in b;
        var j :| 0 <= j < |b| && b[j] == x;
        assert j != i;
        assert b'[if j < i then j else j - 1] == x;
      }
      DistinctFit(a[1..], b');
    }
  }

  lemma {:induction false} CountedOnce<T>(s: seq<T>, x: T)
    requires NoneTwice(s)
    ensures multiset(s)[x] <= 1
    decreases |s|
  {
    if s != [] {
      var n := |s| - 1;
      assert s == s[..n] + [s[n]];
      CountedOnce(s[..n], x);
      assert x == s[n] ==> x !in s[..n];
    }
  }

  lemma TwiceIsCounted<T>(s: seq<T>, i: nat, j: nat)
    requires i < j < |s| && s[i] == s[j]
    ensures multiset(s)[s[i]] >= 2
  {
    assert s == s[..j] + s[j..];
    assert s[i] in s[..j] && s[j] in s[j..];
  }
}
