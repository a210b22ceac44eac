/** `ORDER BY event_time_utc, event_id`: the enumeration of a set of rows by their sort keys. */
module Order {
  import opened Text
  import opened Seqs

  datatype Key = Key(time: string, id: string)

  predicate Before(a: Key, b: Key) {
    Less(a.time, b.time) || (a.time == b.time && Less(a.id, b.id))
  }

  lemma BeforeTransitive(a: Key, b: Key, c: Key)
    requires Before(a, b) && Before(b, c)
    ensures Before(a, c)
  {
    if Less(a.time, b.time) && Less(b.time, c.time) {
      LessTransitive(a.time, b.time, c.time);
    } else if a.time == b.time == c.time {
      LessTransitive(a.id, b.id, c.id);
    }
  }

  lemma BeforeIrreflexive(a: Key)
    ensures !Before(a, a)
  {
    LessIrreflexive(a.time);
    LessIrreflexive(a.id);
  }

  lemma BeforeTotal(a: Key, b: Key)
    ensures a == b || Before(a, b) || Before(b, a)
  {
    LessTotal(a.time, b.time);
    LessTotal(a.id, b.id);
  }

  ghost predicate Sorted(ks: seq<Key>) {
    forall i, j :: 0 <= i < j < |ks| ==> Before(ks[i], ks[j])
  }

  predicate IsFirst(s: set<Key>, k: Key) {
    k in s && forall x :: x in s ==> x == k || Before(k, x)
  }

  lemma {:induction false} FirstExists(s: set<Key>)
    requires s != {}
    ensures exists k :: IsFirst(s, k)
  {
    var a :| a in s;
    if s == {a} {
      assert IsFirst(s, a);
    } else {
      FirstExists(s - {a});
      var m :| IsFirst(s - {a}, m);
      BeforeTotal(a, m);
      var k := if Before(a, m) then a else m;
      forall x | x in s
        ensures x == k || Before(k, x)
      {
        if x != a && k == a && x != m {
          BeforeTransitive(a, m, x);
        }
      }
      assert IsFirst(s, k);
    }
  }

  lemma FirstUnique(s: set<Key>, a: Key, b: Key)
    requires IsFirst(s, a) && IsFirst(s, b)
    ensures a == b
  {
    if a != b {
      BeforeTransitive(a, b, a);
      BeforeIrreflexive(a);
    }
  }

  function First(s: set<Key>): (k: Key)
    requires s != {}
    ensures IsFirst(s, k)
  {
    FirstExists(s);
    assert forall a, b :: IsFirst(s, a) && IsFirst(s, b) ==> a == b by {
      forall a, b | IsFirst(s, a) && IsFirst(s, b)
        ensures a == b
      {
        FirstUnique(s, a, b);
      }
    }
    var k :| k in s && IsFirst(s, k);
    k
  }

  /** The keys of a set in order, each exactly once. */
  function Enumerate(s: set<Key>): (ks: seq<Key>)
    ensures Sorted(ks) && |ks| == |s|
    ensures forall k :: k in ks <==> k in s
  {
    if s == {} then [] else
    var k := First(s);
    [k] + Enumerate(s - {k})
  }

  lemma SortedDistinct(ks: seq<Key>)
    requires Sorted(ks)
    ensures Distinct(ks)
  {
    forall i, j | 0 <= i < j < |ks|
      ensures ks[i] != ks[j]
    {
      BeforeIrreflexive(ks[i]);
    }
  }

  /** A sorted list is determined by its elements. */
  lemma {:induction false} SortedUnique(a: seq<Key>, b: seq<Key>)
    requires Sorted(a) && Sorted(b) && forall k :: k in a <==> k in b
    ensures a == b
  {
    if a == [] {
      assert forall i :: 0 <= i < |b| ==> b[i] in a;
    } else {
      assert a[0] in b;
      assert b[0] in a;
      SameHead(a, b);
      forall k
        ensures k in a[1..] <==> k in b[1..]
      {
        BeforeIrreflexive(k);
        assert k in a <==> k == a[0] || k in a[1..];
        assert k in b <==> k == b[0] || k in b[1..];
      }
      SortedUnique(a[1..], b[1..]);
      assert a == [a[0]] + a[1..] && b == [b[0]] + b[1..];
    }
  }

  lemma SameHead(a: seq<Key>, b: seq<Key>)
    requires Sorted(a) && Sorted(b) && a != [] && b != [] && a[0] in b && b[0] in a
    ensures a[0] == b[0]
  {
    if a[0] != b[0] {
      BeforeTransitive(a[0], b[0], a[0]);
      BeforeIrreflexive(a[0]);
    }
  }

  lemma {:induction false} FilterSorted(ks: seq<Key>, p: Key -> bool)
    requires Sorted(ks)
    ensures Sorted(Filter(ks, p))
  {
    if ks != [] {
      FilterSorted(ks[1..], p);
      var r := Filter(ks[1..], p);
      assert forall k :: k in r ==> Before(ks[0], k);
    }
  }

  /** Filtering the enumeration of a set is enumerating the filtered set. */
  lemma FilterEnumerate(s: set<Key>, p: Key -> bool)
    ensures Filter(Enumerate(s), p) == Enumerate(set k | k in s && p(k))
  {
    FilterSorted(Enumerate(s), p);
    SortedUnique(Filter(Enumerate(s), p), Enumerate(set k | k in s && p(k)));
  }

  function Smaller(s: set<Key>, k: Key): set<Key> {
    set x | x in s && Before(x, k)
  }

  lemma NothingBeforeFirst(s: set<Key>, f: Key)
    requires IsFirst(s, f)
    ensures Smaller(s, f) == {}
  {
    forall x | x in s
      ensures !Before(x, f)
    {
      BeforeIrreflexive(f);
      if Before(x, f) && x != f {
        BeforeTransitive(f, x, f);
      }
    }
  }

  lemma SmallerStep(s: set<Key>, f: Key, k: Key)
    requires IsFirst(s, f) && k in s - {f}
    ensures f !in Smaller(s - {f}, k) && Smaller(s, k) == Smaller(s - {f}, k) + {f}
  {
  }

  /** A key's position is the number of smaller keys. */
  lemma {:induction false} PositionIsRank(s: set<Key>, i: nat)
    requires i < |s|
    ensures |Smaller(s, Enumerate(s)[i])| == i
  {
    var f := First(s);
    if i == 0 {
      NothingBeforeFirst(s, f);
    } else {
      var rest := s - {f};
      PositionIsRank(rest, i - 1);
      var k := Enumerate(rest)[i - 1];
      assert k in Enumerate(rest);
      assert Enumerate(s)[i] == k;
      SmallerStep(s, f, k);
    }
  }

  lemma {:induction false} SubsetSize<T>(a: set<T>, b: set<T>)
    requires a <= b
    ensures |a| <= |b|
  {
    if a != {} {
      var x :| x in a;
      SubsetSize(a - {x}, b - {x});
    }
  }

  /** Adding keys never moves a key towards the front. */
  lemma PositionGrows(s: set<Key>, t: set<Key>, i: nat, j: nat)
    requires s <= t && i < |s| && j < |t| && Enumerate(s)[i] == Enumerate(t)[j]
    ensures i <= j
  {
    var k := Enumerate(s)[i];
    PositionIsRank(s, i);
    PositionIsRank(t, j);
    assert Smaller(s, k) <= Smaller(t, k);
    SubsetSize(Smaller(s, k), Smaller(t, k));
  }
}
