/** Sequences as collections: taking one element out. */
module Sequences {

  function RemoveAt<T>(s: seq<T>, i: nat): (r: seq<T>)
    requires i < |s|
    ensures |r| == |s| - 1
  {
    s[..i] + s[i + 1..]
  }

  lemma {:induction false} RemoveAtContents<T>(s: seq<T>, i: nat)
    requires i < |s|
    ensures multiset(s) == multiset(RemoveAt(s, i)) + multiset{s[i]}
  {
    assert s == s[..i] + [s[i]] + s[i + 1..];
  }

  lemma {:induction false} Cancel<T>(a: multiset<T>, b: multiset<T>, x: T)
    requires a + multiset{x} == b + multiset{x}
    ensures a == b
  {
    assert a == (a + multiset{x}) - multiset{x};
    assert b == (b + multiset{x}) - multiset{x};
  }

  /** A rearrangement of a non-empty sequence holds its first element, and the rest agree. */
  lemma {:induction false} Rearranged<T>(a: seq<T>, b: seq<T>) returns (i: nat)
    requires a != [] && multiset(a) == multiset(b)
    ensures i < |b| && b[i] == a[0]
    ensures multiset(a[1..]) == multiset(RemoveAt(b, i))
  {
    assert a[0] in multiset(b);
    i :| 0 <= i < |b| && b[i] == a[0];
    RemoveAtContents(a, 0);
    assert RemoveAt(a, 0) == a[1..];
    RemoveAtContents(b, i);
    Cancel(multiset(a[1..]), multiset(RemoveAt(b, i)), a[0]);
  }

  function Map<A, B>(f: A -> B, s: seq<A>): (r: seq<B>)
    ensures |r| == |s|
    ensures forall i :: 0 <= i < |s| ==> r[i] == f(s[i])
  {
    seq(|s|, i requires 0 <= i < |s| => f(s[i]))
  }

  lemma {:induction false} MapRemoveAt<A, B>(f: A -> B, s: seq<A>, i: nat)
    requires i < |s|
    ensures Map(f, RemoveAt(s, i)) == RemoveAt(Map(f, s), i)
  {
  }

  /** Rearranging a sequence rearranges what its elements are mapped to. */
  lemma {:induction false} MapContents<A, B>(f: A -> B, a: seq<A>, b: seq<A>)
    requires multiset(a) == multiset(b)
    ensures multiset(Map(f, a)) == multiset(Map(f, b))
    decreases |a|
  {
    if a == [] {
      assert |b| == |multiset(b)| == 0;
    } else {
      var i := Rearranged(a, b);
      MapContents(f, a[1..], RemoveAt(b, i));
      assert Map(f, a) == [f(a[0])] + Map(f, a[1..]);
      MapRemoveAt(f, b, i);
      RemoveAtContents(Map(f, b), i);
    }
  }

  predicate NoTwoEqual<T(==)>(s: seq<T>) {
    forall i, j :: 0 <= i < j < |s| ==> s[i] != s[j]
  }

  lemma {:induction false} AtMostOnce<T>(s: seq<T>)
    requires NoTwoEqual(s)
    ensures forall x :: multiset(s)[x] <= 1
  {
    if s != [] {
      var rest := s[1..];
      assert forall i, j :: 0 <= i < j < |rest| ==> rest[i] == s[i + 1] && rest[j] == s[j + 1];
      AtMostOnce(rest);
      assert s == [s[0]] + rest;
      assert s[0] !in rest by {
        assert forall i :: 0 <= i < |rest| ==> rest[i] == s[i + 1];
      }
    }
  }

  lemma {:induction false} Twice<T>(s: seq<T>, i: nat, j: nat)
    requires i < j < |s| && s[i] == s[j]
    ensures multiset(s)[s[i]] >= 2
  {
    RemoveAtContents(s, i);
    assert RemoveAt(s, i)[j - 1] == s[j];
    assert s[j] in multiset(RemoveAt(s, i));
  }

  /** Having no element twice does not depend on the order. */
  lemma {:induction false} NoTwoEqualContents<T>(a: seq<T>, b: seq<T>)
    requires multiset(a) == multiset(b) && NoTwoEqual(a)
    ensures NoTwoEqual(b)
  {
    AtMostOnce(a);
    forall i, j | 0 <= i < j < |b| ensures b[i] != b[j] {
      if b[i] == b[j] {
        Twice(b, i, j);
        assert false;
      }
    }
  }
}
