/** What the callers of sort.Slice rely on: a permutation of the input in the
given order.  Elements the order does not tell apart may come out either way. */
module Sorting {
  ghost predicate TotalPreorder<T(!new)>(le: (T, T) -> bool) {
    && (forall a, b :: le(a, b) || le(b, a))
    && (forall a, b, c :: le(a, b) && le(b, c) ==> le(a, c))
  }

  ghost predicate SortedBy<T>(le: (T, T) -> bool, s: seq<T>) {
    forall i, j :: 0 <= i < j < |s| ==> le(s[i], s[j])
  }

  lemma InsertSorted<T(!new)>(le: (T, T) -> bool, r: seq<T>, p: nat, x: T)
    requires TotalPreorder(le) && SortedBy(le, r) && p <= |r|
    requires p > 0 ==> le(r[p - 1], x)
    requires forall j :: p <= j < |r| ==> !le(r[j], x)
    ensures SortedBy(le, r[..p] + [x] + r[p..])
  {
    var s := r[..p] + [x] + r[p..];
    forall i, j | 0 <= i < j < |s| ensures le(s[i], s[j]) {
      if j < p {
        assert s[i] == r[i] && s[j] == r[j];
      } else if j == p {
        assert s[i] == r[i] && s[j] == x;
        assert i < p - 1 ==> le(r[i], r[p - 1]);
      } else {
        assert s[j] == r[j - 1];
        assert !le(r[j - 1], x) && le(x, r[j - 1]);
        if i < p {
          assert s[i] == r[i] && le(r[i], r[j - 1]);
        } else if i == p {
          assert s[i] == x;
        } else {
          assert s[i] == r[i - 1] && le(r[i - 1], r[j - 1]);
        }
      }
    }
  }

  method Sort<T(!new)>(s: seq<T>, le: (T, T) -> bool) returns (r: seq<T>)
    requires TotalPreorder(le)
    ensures multiset(r) == multiset(s) && |r| == |s|
    ensures SortedBy(le, r)
  {
    r := [];
    var i := 0;
    while i < |s|
      invariant 0 <= i <= |s| && |r| == i
      invariant multiset(r) == multiset(s[..i])
      invariant SortedBy(le, r)
    {
      var p := |r|;
      while p > 0 && !le(r[p - 1], s[i])
        invariant 0 <= p <= |r|
        invariant forall j :: p <= j < |r| ==> !le(r[j], s[i])
      {
        p := p - 1;
      }
      InsertSorted(le, r, p, s[i]);
      InsertMultiset(r, p, s[i]);
      assert s[..i + 1] == s[..i] + [s[i]];
      r := r[..p] + [s[i]] + r[p..];
      i := i + 1;
    }
    assert s[..i] == s;
  }

  lemma InsertMultiset<T>(r: seq<T>, p: nat, x: T)
    requires p <= |r|
    ensures multiset(r[..p] + [x] + r[p..]) == multiset(r) + multiset{x}
  {
    assert r == r[..p] + r[p..];
  }

  // A permutation has the same members.
  lemma SameMembers<T>(a: seq<T>, b: seq<T>, x: T)
    requires multiset(a) == multiset(b)
    ensures x in a <==> x in b
  {
    assert x in a <==> x in multiset(a);
    assert x in b <==> x in multiset(b);
  }

  lemma Repeats<T>(s: seq<T>, i: nat, j: nat)
    requires i < j < |s|
    ensures s[i] == s[j] ==> multiset(s)[s[i]] >= 2
  {
    assert s == s[..i] + [s[i]] + s[i + 1..j] + [s[j]] + s[j + 1..];
  }

  lemma Alone<T>(s: seq<T>, k: nat)
    requires k < |s| && forall i :: 0 <= i < |s| && i != k ==> s[i] != s[k]
    ensures multiset(s)[s[k]] == 1
  {
    assert s == s[..k] + [s[k]] + s[k + 1..];
    assert s[k] !in s[..k] && s[k] !in s[k + 1..];
  }

  // Keys that are apart in a list stay apart however it is reordered.
  lemma PermutedApart<T, K>(a: seq<T>, b: seq<T>, key: T -> K)
    requires forall i, j :: 0 <= i < j < |a| ==> key(a[i]) != key(a[j])
    requires multiset(a) == multiset(b)
    ensures forall i, j :: 0 <= i < j < |b| ==> key(b[i]) != key(b[j])
  {
    forall i, j | 0 <= i < j < |b|
      ensures key(b[i]) != key(b[j])
    {
      SameMembers(a, b, b[i]);
      SameMembers(a, b, b[j]);
      var k :| 0 <= k < |a| && a[k] == b[i];
      var l :| 0 <= l < |a| && a[l] == b[j];
      Alone(a, k);
      Repeats(b, i, j);
    }
  }
}
