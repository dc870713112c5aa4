/** The byte-wise lexicographic order, and lists sorted by it.

    `bytes.Compare` orders keys this way and SQLite's BINARY collation orders
    text this way. A list without two elements of equal rank has exactly one
    sorted arrangement, so whatever order a map or a table is walked in, the
    sorted result is determined by the set of its elements. */
module Ordering {

  predicate LexLess(a: seq<int>, b: seq<int>) {
    b != [] && (a == [] || a[0] < b[0] || (a[0] == b[0] && LexLess(a[1..], b[1..])))
  }

  lemma {:induction false} LexIrreflexive(a: seq<int>)
    ensures !LexLess(a, a)
  {
    if a != [] {
      LexIrreflexive(a[1..]);
    }
  }

  lemma {:induction false} LexTransitive(a: seq<int>, b: seq<int>, c: seq<int>)
    requires LexLess(a, b) && LexLess(b, c)
    ensures LexLess(a, c)
  {
    if a != [] && a[0] == b[0] && b[0] == c[0] {
      LexTransitive(a[1..], b[1..], c[1..]);
    }
  }

  lemma {:induction false} LexTotal(a: seq<int>, b: seq<int>)
    ensures a == b || LexLess(a, b) || LexLess(b, a)
  {
    if a != [] && b != [] && a[0] == b[0] {
      LexTotal(a[1..], b[1..]);
      assert a == [a[0]] + a[1..] && b == [b[0]] + b[1..];
    }
  }

  /** a and b are the same up to n, where a ends or has the smaller element. */
  predicate PrecedesAt(a: seq<int>, b: seq<int>, n: int) {
    0 <= n <= |a| && n < |b| && a[..n] == b[..n] && (n == |a| || a[n] < b[n])
  }

  /** The first difference decides, and a proper prefix comes first. */
  lemma {:induction false} LexLessExact(a: seq<int>, b: seq<int>)
    ensures LexLess(a, b) <==> exists n :: PrecedesAt(a, b, n)
  {
    if b == [] {
    } else if a == [] || a[0] < b[0] {
      assert PrecedesAt(a, b, 0);
    } else if a[0] == b[0] {
      LexLessExact(a[1..], b[1..]);
      if LexLess(a, b) {
        var n :| PrecedesAt(a[1..], b[1..], n);
        LaterDifference(a, b, n);
        assert PrecedesAt(a, b, n + 1);
      }
      forall n | PrecedesAt(a, b, n)
        ensures PrecedesAt(a[1..], b[1..], n - 1)
      {
        assert a[1..][..n - 1] == a[..n][1..] == b[..n][1..] == b[1..][..n - 1];
      }
    } else {
      forall n
        ensures !PrecedesAt(a, b, n)
      {
        assert n > 0 && n <= |a| && n < |b| ==> a[..n][0] != b[..n][0];
      }
    }
  }

  lemma LaterDifference(a: seq<int>, b: seq<int>, n: int)
    requires a != [] && b != [] && a[0] == b[0] && PrecedesAt(a[1..], b[1..], n)
    ensures a[..n + 1] == b[..n + 1]
  {
    assert a[..n + 1] == [a[0]] + a[1..][..n] && b[..n + 1] == [b[0]] + b[1..][..n];
  }

  ghost predicate StrictlySorted<T>(s: seq<T>, rank: T -> seq<int>) {
    forall i, j :: 0 <= i < j < |s| ==> LexLess(rank(s[i]), rank(s[j]))
  }

  ghost predicate Injective<T(!new)>(s: set<T>, rank: T -> seq<int>) {
    forall x, y :: x in s && y in s && rank(x) == rank(y) ==> x == y
  }

  /** x has the least rank in s. */
  ghost predicate IsLeast<T(!new)>(x: T, s: set<T>, rank: T -> seq<int>) {
    x in s && forall y :: y in s && y != x ==> LexLess(rank(x), rank(y))
  }

  lemma {:induction false} LeastExists<T(!new)>(s: set<T>, rank: T -> seq<int>) returns (x: T)
    requires s != {} && Injective(s, rank)
    ensures IsLeast(x, s, rank)
  {
    x :| x in s;
    var rest := s - {x};
    if rest != {} {
      var y := LeastExists(rest, rank);
      LexTotal(rank(x), rank(y));
      if LexLess(rank(x), rank(y)) {
        forall z | z in s && z != x && z != y
          ensures LexLess(rank(x), rank(z))
        {
          LexTransitive(rank(x), rank(y), rank(z));
        }
      } else {
        x := y;
      }
    } else {
      assert s == {x};
    }
  }

  /** The elements of s in increasing order of rank. */
  ghost function Enumerate<T(!new)>(s: set<T>, rank: T -> seq<int>): (r: seq<T>)
    requires Injective(s, rank)
    ensures StrictlySorted(r, rank)
    ensures forall x :: x in r <==> x in s
    ensures |r| == |s|
  {
    if s == {} then [] else
      LeastExistsNow(s, rank);
      var x :| IsLeast(x, s, rank);
      [x] + Enumerate(s - {x}, rank)
  }

  lemma LeastExistsNow<T(!new)>(s: set<T>, rank: T -> seq<int>)
    requires s != {} && Injective(s, rank)
    ensures exists x :: IsLeast(x, s, rank)
  {
    var x := LeastExists(s, rank);
  }

  /** A sorted list is determined by its elements. */
  lemma {:induction false} SortedUnique<T(!new)>(a: seq<T>, b: seq<T>, rank: T -> seq<int>)
    requires StrictlySorted(a, rank) && StrictlySorted(b, rank)
    requires forall x :: x in a <==> x in b
    ensures a == b
  {
    if a == [] {
      assert forall i :: 0 <= i < |b| ==> b[i] in b;
    } else {
      assert a[0] in a && a[0] in b;
      assert b[0] in b && b[0] in a;
      if a[0] != b[0] {
        var i :| 0 <= i < |a| && a[i] == b[0];
        var j :| 0 <= j < |b| && b[j] == a[0];
        LexTransitive(rank(a[0]), rank(b[0]), rank(a[0]));
        LexIrreflexive(rank(a[0]));
      }
      forall x | x in a[1..]
        ensures x in b[1..]
      {
        NotLater(a, x, rank);
        assert x in a && x in b;
      }
      forall x | x in b[1..]
        ensures x in a[1..]
      {
        NotLater(b, x, rank);
        assert x in b && x in a;
      }
      SortedUnique(a[1..], b[1..], rank);
      assert a == [a[0]] + a[1..] && b == [b[0]] + b[1..];
    }
  }

  lemma NotLater<T(!new)>(a: seq<T>, x: T, rank: T -> seq<int>)
    requires a != [] && StrictlySorted(a, rank) && x in a[1..]
    ensures x != a[0]
  {
    var i :| 0 < i < |a| && a[i] == x;
    LexIrreflexive(rank(x));
  }

  /** A strictly sorted list never repeats an element. */
  lemma SortedDistinct<T(!new)>(a: seq<T>, rank: T -> seq<int>)
    requires StrictlySorted(a, rank)
    ensures forall i, j :: 0 <= i < j < |a| ==> rank(a[i]) != rank(a[j])
  {
    forall i, j | 0 <= i < j < |a|
      ensures rank(a[i]) != rank(a[j])
    {
      LexIrreflexive(rank(a[i]));
    }
  }
}
