/** Hours in ascending order, the order of their labels (see `TimeOrder.HourKeyOrder`). */
module Hours {

  ghost predicate Increasing(s: seq<int>) {
    forall i, k :: 0 <= i < k < |s| ==> s[i] < s[k]
  }

  predicate IsLeast(s: set<int>, x: int) {
    x in s && forall y :: y in s ==> x <= y
  }

  lemma EmptyOrNot(s: set<int>)
    ensures s == {} || exists x :: x in s
  {
    if forall x :: x !in s {
      assert s == {};
    }
  }

  lemma {:induction false} LeastExists(s: set<int>)
    requires s != {}
    ensures exists x :: IsLeast(s, x)
  {
    EmptyOrNot(s);
    var a :| a in s;
    if s == {a} {
      assert IsLeast(s, a);
    } else {
      LeastExists(s - {a});
      var m :| IsLeast(s - {a}, m);
      var x := if a < m then a else m;
      assert forall y :: y in s ==> y == a || y in s - {a};
      assert IsLeast(s, x);
    }
  }

  function Least(s: set<int>): (x: int)
    requires s != {}
    ensures IsLeast(s, x)
  {
    LeastExists(s);
    var x :| x in s && IsLeast(s, x);
    x
  }

  function Ascend(s: set<int>): (r: seq<int>)
    ensures Increasing(r) && |r| == |s| && forall x :: x in r <==> x in s
  {
    if s == {} then [] else
    var x := Least(s);
    [x] + Ascend(s - {x})
  }

  /** An increasing list is determined by its elements. */
  lemma {:induction false} IncreasingUnique(a: seq<int>, b: seq<int>)
    requires Increasing(a) && Increasing(b) && forall x :: x in a <==> x in b
    ensures a == b
  {
    if a == [] {
      EmptyOrHas(b);
    } else {
      var x := a[0];
      assert x in a && x in b;
      var i :| 0 <= i < |b| && b[i] == x;
      var y := b[0];
      assert y in b && y in a;
      SameFirst(a, b);
      forall x: int
        ensures x in a[1..] <==> x in b[1..]
      {
        assert x in a <==> x == a[0] || x in a[1..];
        assert x in b <==> x == b[0] || x in b[1..];
      }
      IncreasingUnique(a[1..], b[1..]);
      assert a == [a[0]] + a[1..] && b == [b[0]] + b[1..];
    }
  }

  lemma EmptyOrHas(s: seq<int>)
    ensures s == [] || exists x :: x in s
  {
    if s != [] {
      var x := s[0];
      assert x in s;
    }
  }

  lemma SameFirst(a: seq<int>, b: seq<int>)
    requires Increasing(a) && Increasing(b) && a != [] && b != [] && a[0] in b && b[0] in a
    ensures a[0] == b[0]
  {
    var i :| 0 <= i < |b| && b[i] == a[0];
    var k :| 0 <= k < |a| && a[k] == b[0];
    assert b[0] <= b[i] && a[0] <= a[k];
  }

  lemma AscendIs(s: set<int>, r: seq<int>)
    requires Increasing(r) && forall x :: x in r <==> x in s
    ensures Ascend(s) == r
  {
    IncreasingUnique(Ascend(s), r);
  }
}
