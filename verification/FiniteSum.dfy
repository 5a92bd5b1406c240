/** Sums of reals over finite sets of nodes. */
module FiniteSum {
  import opened Graph

  ghost function Sum(s: set<Node>, f: Node -> real): (r: real) {
    if s == {} then 0.0 else var x :| x in s; f(x) + Sum(s - {x}, f)
  }

  /** The sum does not depend on where it starts. */
  lemma {:induction false} SumPick(s: set<Node>, f: Node -> real, x: Node)
    requires x in s
    ensures Sum(s, f) == f(x) + Sum(s - {x}, f)
    decreases s
  {
    var y :| y in s && Sum(s, f) == f(y) + Sum(s - {y}, f);
    if y != x {
      SumPick(s - {y}, f, x);
      SumPick(s - {x}, f, y);
      assert s - {y} - {x} == s - {x} - {y};
    }
  }

  lemma SumAdd(s: set<Node>, f: Node -> real, x: Node)
    requires x !in s
    ensures Sum(s + {x}, f) == Sum(s, f) + f(x)
  {
    SumPick(s + {x}, f, x);
    assert s + {x} - {x} == s;
  }

  lemma {:induction false} SumSame(s: set<Node>, f: Node -> real, g: Node -> real)
    requires forall x :: x in s ==> f(x) == g(x)
    ensures Sum(s, f) == Sum(s, g)
    decreases s
  {
    if s != {} {
      var x :| x in s;
      SumPick(s, f, x);
      SumPick(s, g, x);
      SumSame(s - {x}, f, g);
    }
  }

  lemma {:induction false} SumPlus(s: set<Node>, f: Node -> real, g: Node -> real, h: Node -> real)
    requires forall x :: x in s ==> h(x) == f(x) + g(x)
    ensures Sum(s, h) == Sum(s, f) + Sum(s, g)
    decreases s
  {
    if s != {} {
      var x :| x in s;
      SumPick(s, f, x);
      SumPick(s, g, x);
      SumPick(s, h, x);
      SumPlus(s - {x}, f, g, h);
    }
  }

  lemma {:induction false} SumScale(s: set<Node>, c: real, f: Node -> real, h: Node -> real)
    requires forall x :: x in s ==> h(x) == c * f(x)
    ensures Sum(s, h) == c * Sum(s, f)
    decreases s
  {
    if s != {} {
      var x :| x in s;
      SumPick(s, f, x);
      SumPick(s, h, x);
      SumScale(s - {x}, c, f, h);
      assert h(x) == c * f(x);
      assert c * (f(x) + Sum(s - {x}, f)) == c * f(x) + c * Sum(s - {x}, f);
    }
  }

  /** Terms that vanish may be left out. */
  lemma {:induction false} SumSubset(s: set<Node>, t: set<Node>, f: Node -> real)
    requires t <= s && forall x :: x in s && x !in t ==> f(x) == 0.0
    ensures Sum(s, f) == Sum(t, f)
    decreases s
  {
    if s != t {
      assert exists x :: x in s && x !in t;
      var x :| x in s && x !in t;
      SumPick(s, f, x);
      SumSubset(s - {x}, t, f);
    }
  }

  lemma SumZero(s: set<Node>, f: Node -> real)
    requires forall x :: x in s ==> f(x) == 0.0
    ensures Sum(s, f) == 0.0
  {
    SumSubset(s, {}, f);
  }

  /** Two finite sums may be taken in either order. */
  lemma {:induction false} SumSwap(s: set<Node>, t: set<Node>, f: (Node, Node) -> real)
    ensures Sum(s, x => Sum(t, y => f(x, y))) == Sum(t, y => Sum(s, x => f(x, y)))
    decreases s
  {
    if s == {} {
      SumZero(t, y => Sum(s, x => f(x, y)));
    } else {
      var z :| z in s;
      SumPick(s, x => Sum(t, y => f(x, y)), z);
      SumSwap(s - {z}, t, f);
      forall y | y in t ensures Sum(s, x => f(x, y)) == f(z, y) + Sum(s - {z}, x => f(x, y)) {
        SumPick(s, x => f(x, y), z);
      }
      SumPlus(t, y => f(z, y), y => Sum(s - {z}, x => f(x, y)), y => Sum(s, x => f(x, y)));
    }
  }

  lemma {:induction false} SumBounds(s: set<Node>, f: Node -> real, b: real)
    requires forall x :: x in s ==> 0.0 <= f(x) <= b
    ensures 0.0 <= Sum(s, f) <= |s| as real * b
    decreases s
  {
    if s != {} {
      var x :| x in s;
      SumPick(s, f, x);
      SumBounds(s - {x}, f, b);
      assert |s| as real * b == |s - {x}| as real * b + b;
    }
  }

  function Times(n: nat, b: real): (r: real) { n as real * b }

  lemma TimesSucc(n: nat, b: real)
    ensures Times(0, b) == 0.0 && Times(n + 1, b) == b + Times(n, b)
  {
  }

  /** The sum reaches its bound exactly if every term does. */
  lemma {:induction false} SumMax(s: set<Node>, f: Node -> real, b: real)
    requires forall x :: x in s ==> f(x) <= b
    ensures Sum(s, f) <= Times(|s|, b)
    ensures Sum(s, f) == Times(|s|, b) <==> forall x :: x in s ==> f(x) == b
    decreases s
  {
    hide Times;
    TimesSucc(if s == {} then 0 else |s| - 1, b);
    if s != {} {
      var y :| y in s;
      SumPick(s, f, y);
      var rest := s - {y};
      SumMax(rest, f, b);
      hide Sum;
      assert (forall x :: x in s ==> f(x) == b) <==> f(y) == b && forall x :: x in rest ==> f(x) == b;
    }
  }
}
