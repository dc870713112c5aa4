/** Facts about sequences and finite sets that several modules share. */
module Sequences {

  lemma HeadAndTail<T>(s: seq<T>)
    requires s != []
    ensures s == [s[0]] + s[1..]
  {
  }

  lemma Regroup<T>(a: seq<T>, b: seq<T>, c: seq<T>)
    ensures (a + b) + c == a + (b + c)
  {
  }

  lemma FrontAndLast<T>(s: seq<T>)
    requires s != []
    ensures s == s[..|s| - 1] + [s[|s| - 1]]
  {
  }

  lemma FrontOfSnoc<T>(front: seq<T>, last: T)
    ensures (front + [last])[..|front + [last]| - 1] == front
    ensures (front + [last])[|front + [last]| - 1] == last
  {
  }

  /** s in three parts around its i-th element. */
  lemma SplitAround<T>(s: seq<T>, i: nat)
    requires i < |s|
    ensures s == (s[..i] + [s[i]]) + s[i + 1..]
  {
  }

  lemma NextPrefix<T>(s: seq<T>, i: nat)
    requires i < |s|
    ensures s[..i + 1] == s[..i] + [s[i]]
  {
  }

  ghost predicate Distinct<T>(s: seq<T>) {
    forall i, j :: 0 <= i < j < |s| ==> s[i] != s[j]
  }

  lemma DistinctSnoc<T>(s: seq<T>, x: T)
    requires Distinct(s) && x !in s
    ensures Distinct(s + [x])
  {
  }

  /** r is what s has at the positions in `at`, which increase. */
  ghost predicate Picks<T>(s: seq<T>, at: seq<nat>, r: seq<T>) {
    && |r| == |at|
    && (forall i, j :: 0 <= i < j < |at| ==> at[i] < at[j])
    && forall i :: 0 <= i < |at| ==> at[i] < |s| && r[i] == s[at[i]]
  }

  /** at has, of the positions in s, just those marked in `kept`. */
  ghost predicate PicksMarked<T>(s: seq<T>, at: seq<nat>, r: seq<T>, kept: seq<bool>) {
    && Picks(s, at, r) && |kept| == |s|
    && forall n :: 0 <= n < |s| ==> (n in at <==> kept[n])
  }

  lemma MarkedNot<T>(front: seq<T>, last: T, at: seq<nat>, r: seq<T>, kept: seq<bool>)
    requires PicksMarked(front, at, r, kept)
    ensures PicksMarked(front + [last], at, r, kept + [false])
  {
    PicksNot(front, last, at, r);
    assert |front| !in at;
  }

  lemma MarkedLast<T>(front: seq<T>, last: T, at: seq<nat>, r: seq<T>, kept: seq<bool>)
    requires PicksMarked(front, at, r, kept)
    ensures PicksMarked(front + [last], at + [|front|], r + [last], kept + [true])
  {
    PicksLast(front, last, at, r);
    forall n | 0 <= n < |front|
      ensures n in at + [|front|] <==> n in at
    {
    }
    assert (at + [|front|])[|at|] == |front|;
  }

  lemma PicksNot<T>(front: seq<T>, last: T, at: seq<nat>, r: seq<T>)
    requires Picks(front, at, r)
    ensures Picks(front + [last], at, r)
  {
  }

  lemma PicksLast<T>(front: seq<T>, last: T, at: seq<nat>, r: seq<T>)
    requires Picks(front, at, r)
    ensures Picks(front + [last], at + [|front|], r + [last])
  {
  }

  /** Some order of the elements of a finite set. */
  lemma {:induction false} SomeOrder<T(!new)>(s: set<T>) returns (order: seq<T>)
    ensures forall x :: x in order <==> x in s
    ensures Distinct(order)
  {
    if s == {} {
      order := [];
    } else {
      var x :| x in s;
      var rest := SomeOrder(s - {x});
      order := rest + [x];
    }
  }
}
