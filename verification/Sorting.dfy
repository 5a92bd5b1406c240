/** Sorting by a numeric key. */
module Sorting {

  ghost predicate SortedBy<T>(s: seq<T>, key: T -> real) {
    forall i, j :: 0 <= i < j < |s| ==> key(s[i]) <= key(s[j])
  }

  /** `r` is `s` in another order. */
  ghost predicate Rearranged<T>(s: seq<T>, r: seq<T>) {
    multiset(s) == multiset(r)
  }

  lemma SortedAt<T>(s: seq<T>, key: T -> real, i: nat, j: nat)
    requires SortedBy(s, key) && i <= j < |s|
    ensures key(s[i]) <= key(s[j])
  {
  }

  lemma Inserted<T>(s: seq<T>, x: T, i: nat, key: T -> real)
    requires SortedBy(s, key) && i <= |s|
    requires (i > 0 ==> key(s[i - 1]) <= key(x)) && (i < |s| ==> key(x) <= key(s[i]))
    ensures SortedBy(s[..i] + [x] + s[i..], key)
  {
    var r := s[..i] + [x] + s[i..];
    assert forall k :: 0 <= k < |r| ==> r[k] == if k < i then s[k] else if k == i then x else s[k - 1];
    forall a, b | 0 <= a < b < |r| ensures key(r[a]) <= key(r[b]) {
      hide SortedBy;
      if a < i { SortedAt(s, key, a, i - 1); }
      if b > i { SortedAt(s, key, i, b - 1); }
      if a < i < b { SortedAt(s, key, a, b - 1); }
      if b < i { SortedAt(s, key, a, b); }
      if a > i { SortedAt(s, key, a - 1, b - 1); }
    }
  }

  lemma InsertedSame<T>(s: seq<T>, x: T, i: nat)
    requires i <= |s|
    ensures Rearranged(s + [x], s[..i] + [x] + s[i..])
  {
    assert s == s[..i] + s[i..];
  }

  method InsertBy<T>(s: seq<T>, x: T, key: T -> real) returns (r: seq<T>)
    requires SortedBy(s, key)
    ensures SortedBy(r, key) && Rearranged(s + [x], r)
  {
    hide SortedBy, Rearranged;
    var i := |s|;
    while i > 0 && key(s[i - 1]) > key(x)
      invariant 0 <= i <= |s| && (i < |s| ==> key(x) <= key(s[i]))
    {
      i := i - 1;
    }
    r := s[..i] + [x] + s[i..];
    Inserted(s, x, i, key);
    InsertedSame(s, x, i);
  }

  method SortBy<T>(s: seq<T>, key: T -> real) returns (r: seq<T>)
    ensures SortedBy(r, key) && Rearranged(s, r)
  {
    r := [];
    var i := 0;
    while i < |s|
      invariant 0 <= i <= |s| && SortedBy(r, key) && Rearranged(s[..i], r)
    {
      r := InsertBy(r, s[i], key);
      assert s[..i + 1] == s[..i] + [s[i]];
      i := i + 1;
    }
    assert s[..i] == s;
  }

  lemma RearrangedIn<T>(s: seq<T>, r: seq<T>, x: T)
    requires Rearranged(s, r)
    ensures |s| == |r| && (x in s <==> x in r)
  {
    assert |multiset(s)| == |s| && |multiset(r)| == |r|;
    assert (x in s <==> x in multiset(s)) && (x in r <==> x in multiset(r));
  }

  /** Taking the first element out of both sides leaves a rearrangement. */
  lemma DropFirst<T>(s: seq<T>, r: seq<T>) returns (j: nat)
    requires Rearranged(s, r) && s != []
    ensures j < |r| && r[j] == s[0] && Rearranged(s[1..], r[..j] + r[j + 1..])
  {
    RearrangedIn(s, r, s[0]);
    j :| j < |r| && r[j] == s[0];
    assert s == [s[0]] + s[1..];
    assert r == r[..j] + [s[0]] + r[j + 1..];
    assert multiset(s[1..]) == multiset(s) - multiset{s[0]};
    assert multiset(r[..j] + r[j + 1..]) == multiset(r) - multiset{s[0]};
  }

  /** Putting the same elements back at different places keeps a rearrangement. */
  lemma AddBack<T>(s: seq<T>, x: seq<T>, a: seq<T>, b: seq<T>)
    requires Rearranged(s, a + b)
    ensures Rearranged(x + s, a + x + b)
  {
    assert multiset(a + b) == multiset(a) + multiset(b);
    assert multiset(a + x + b) == multiset(a) + multiset(x) + multiset(b);
  }

  lemma CutAt<T>(s: seq<T>, j: nat)
    requires j < |s|
    ensures s == s[..j] + [s[j]] + s[j + 1..]
  {
  }
}
