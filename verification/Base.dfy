/** Small shared vocabulary. */
module Base {

  datatype Option<+T> = None | Some(value: T)

  /** The next element an iteration over a set visits: any of them. */
  method Pick<T(==)>(s: set<T>) returns (x: T)
    requires s != {}
    ensures x in s
  {
    x :| x in s;
  }

  /** The elements in the order some iteration visits them. */
  method Enumerate<T(==)>(s: set<T>) returns (q: seq<T>)
    ensures (forall x :: x in q <==> x in s) && (s == {} ==> q == [])
  {
    q := [];
    var rest := s;
    while rest != {}
      invariant rest <= s && (forall x :: x in q <==> x in s - rest) && (s == {} ==> q == [])
      decreases rest
    {
      var x := Pick(rest);
      rest := rest - {x};
      q := q + [x];
    }
  }

  ghost predicate NoDup<T>(s: seq<T>) {
    forall i, j :: 0 <= i < j < |s| ==> s[i] != s[j]
  }
}
