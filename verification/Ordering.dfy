/** The stable sort of Array.prototype.sort, for an arbitrary comparator. */
module Ordering {

  /** What a comparator must be for a sort to be meaningful: total and transitive, ties allowed. */
  ghost predicate Comparator<T(!new)>(atMost: (T, T) -> bool) {
    && (forall a, b :: atMost(a, b) || atMost(b, a))
    && (forall a, b, c :: atMost(a, b) && atMost(b, c) ==> atMost(a, c))
  }

  /** The comparator never ties two different members. */
  ghost predicate Separates<T(!new)>(atMost: (T, T) -> bool, members: seq<T>) {
    forall a, b :: a in members && b in members && atMost(a, b) && atMost(b, a) ==> a == b
  }

  ghost predicate IsSorted<T(!new)>(xs: seq<T>, atMost: (T, T) -> bool) {
    forall i, j :: 0 <= i < j < |xs| ==> atMost(xs[i], xs[j])
  }

  /** Puts x before the first element that is not smaller: an earlier element stays before its ties. */
  function Insert<T>(x: T, xs: seq<T>, atMost: (T, T) -> bool): (r: seq<T>)
    ensures |r| == |xs| + 1
  {
    if xs == [] || atMost(x, xs[0]) then [x] + xs else [xs[0]] + Insert(x, xs[1..], atMost)
  }

  function Sort<T>(xs: seq<T>, atMost: (T, T) -> bool): (r: seq<T>)
    ensures |r| == |xs|
  {
    if xs == [] then [] else Insert(xs[0], Sort(xs[1..], atMost), atMost)
  }

  lemma {:induction false} InsertPermutes<T>(x: T, xs: seq<T>, atMost: (T, T) -> bool)
    ensures multiset(Insert(x, xs, atMost)) == multiset([x] + xs)
  {
    if !(xs == [] || atMost(x, xs[0])) {
      InsertPermutes(x, xs[1..], atMost);
      assert xs == [xs[0]] + xs[1..];
    }
  }

  lemma {:induction false} SortPermutes<T>(xs: seq<T>, atMost: (T, T) -> bool)
    ensures multiset(Sort(xs, atMost)) == multiset(xs)
  {
    if xs != [] {
      SortPermutes(xs[1..], atMost);
      InsertPermutes(xs[0], Sort(xs[1..], atMost), atMost);
      assert xs == [xs[0]] + xs[1..];
    }
  }

  lemma SameMembers<T>(xs: seq<T>, ys: seq<T>)
    requires multiset(xs) == multiset(ys)
    ensures forall x :: x in xs <==> x in ys
    ensures |xs| == |ys|
  {
    assert |multiset(xs)| == |xs| && |multiset(ys)| == |ys|;
    forall x | x in xs ensures x in ys {
      assert x in multiset(xs);
    }
    forall x | x in ys ensures x in xs {
      assert x in multiset(ys);
    }
  }

  lemma SortMembers<T>(xs: seq<T>, atMost: (T, T) -> bool)
    ensures forall x :: x in Sort(xs, atMost) <==> x in xs
  {
    SortPermutes(xs, atMost);
    SameMembers(Sort(xs, atMost), xs);
  }

  lemma {:induction false} InsertSorts<T(!new)>(x: T, xs: seq<T>, atMost: (T, T) -> bool)
    requires Comparator(atMost) && IsSorted(xs, atMost)
    ensures IsSorted(Insert(x, xs, atMost), atMost)
  {
    if xs == [] {
    } else if atMost(x, xs[0]) {
      var r := [x] + xs;
      forall i, j | 0 <= i < j < |r| ensures atMost(r[i], r[j]) {
        assert atMost(xs[0], xs[0]);
        assert atMost(xs[0], xs[j - 1]);
      }
    } else {
      InsertSorts(x, xs[1..], atMost);
      InsertPermutes(x, xs[1..], atMost);
      var r := Insert(x, xs[1..], atMost);
      SameMembers(r, [x] + xs[1..]);
      assert atMost(xs[0], x);
      forall y | y in r ensures atMost(xs[0], y) {
        assert y in [x] + xs[1..];
      }
    }
  }

  lemma {:induction false} SortSorts<T(!new)>(xs: seq<T>, atMost: (T, T) -> bool)
    requires Comparator(atMost)
    ensures IsSorted(Sort(xs, atMost), atMost)
  {
    if xs != [] {
      SortSorts(xs[1..], atMost);
      InsertSorts(xs[0], Sort(xs[1..], atMost), atMost);
    }
  }

  lemma {:induction false} SortKeeps<T(!new)>(xs: seq<T>, atMost: (T, T) -> bool)
    requires IsSorted(xs, atMost)
    ensures Sort(xs, atMost) == xs
  {
    if |xs| > 0 {
      SortKeeps(xs[1..], atMost);
      assert xs == [xs[0]] + xs[1..];
    }
  }

  lemma FirstAgree<T(!new)>(a: seq<T>, b: seq<T>, atMost: (T, T) -> bool)
    requires a != [] && b != [] && a[0] in b && b[0] in a
    requires IsSorted(a, atMost) && IsSorted(b, atMost) && Comparator(atMost) && Separates(atMost, a)
    ensures a[0] == b[0]
  {
    assert atMost(a[0], a[0]) && atMost(b[0], b[0]);
    var i :| 0 <= i < |b| && b[i] == a[0];
    var j :| 0 <= j < |a| && a[j] == b[0];
    assert atMost(b[0], a[0]) && atMost(a[0], b[0]);
  }

  lemma TailsPermute<T>(a: seq<T>, b: seq<T>)
    requires a != [] && b != [] && a[0] == b[0] && multiset(a) == multiset(b)
    ensures multiset(a[1..]) == multiset(b[1..])
  {
    assert a == [a[0]] + a[1..] && b == [b[0]] + b[1..];
    assert multiset(a[1..]) == multiset(a) - multiset{a[0]};
    assert multiset(b[1..]) == multiset(b) - multiset{b[0]};
  }

  lemma RemoveOne<T>(a: seq<T>, b: seq<T>, k: nat)
    requires a != [] && k < |b| && b[k] == a[0] && multiset(a) == multiset(b)
    ensures multiset(a[1..]) == multiset(b[..k] + b[k + 1..])
  {
    assert a == [a[0]] + a[1..];
    assert b == b[..k] + [b[k]] + b[k + 1..];
    assert multiset(a[1..]) == multiset(a) - multiset{a[0]};
    assert multiset(b[..k] + b[k + 1..]) == multiset(b) - multiset{b[k]};
  }

  /** Two sorted arrangements of the same elements are equal when the comparator separates them. */
  lemma {:induction false} SortedUnique<T(!new)>(a: seq<T>, b: seq<T>, atMost: (T, T) -> bool)
    requires IsSorted(a, atMost) && IsSorted(b, atMost) && multiset(a) == multiset(b)
    requires Comparator(atMost) && Separates(atMost, a)
    ensures a == b
  {
    SameMembers(a, b);
    if a != [] {
      FirstAgree(a, b, atMost);
      TailsPermute(a, b);
      SortedTail(a, atMost);
      SortedTail(b, atMost);
      hide IsSorted, Comparator, Separates;
      SortedUnique(a[1..], b[1..], atMost);
      assert a == [a[0]] + a[1..] && b == [b[0]] + b[1..];
    }
  }

  lemma SortedTail<T(!new)>(a: seq<T>, atMost: (T, T) -> bool)
    requires a != [] && IsSorted(a, atMost)
    ensures IsSorted(a[1..], atMost)
    ensures Separates(atMost, a) ==> Separates(atMost, a[1..])
  {
  }

  /** The result of a sort does not depend on the order of its input. */
  lemma SortForgetsOrder<T(!new)>(a: seq<T>, b: seq<T>, atMost: (T, T) -> bool)
    requires multiset(a) == multiset(b) && Comparator(atMost) && Separates(atMost, a)
    ensures Sort(a, atMost) == Sort(b, atMost)
  {
    SortPermutes(a, atMost);
    SortPermutes(b, atMost);
    SortSorts(a, atMost);
    SortSorts(b, atMost);
    SortMembers(a, atMost);
    SortedUnique(Sort(a, atMost), Sort(b, atMost), atMost);
  }

  /* ---- Stability, and when order shows ---- */

  /** Neither comes before the other. */
  predicate Ties<T>(atMost: (T, T) -> bool, a: T, b: T) {
    atMost(a, b) && atMost(b, a)
  }

  /** The members that tie with x, in their order. */
  function TiedWith<T>(xs: seq<T>, x: T, atMost: (T, T) -> bool): seq<T> {
    if xs == [] then [] else (if Ties(atMost, xs[0], x) then [xs[0]] else []) + TiedWith(xs[1..], x, atMost)
  }

  lemma {:induction false} InsertStable<T(!new)>(z: T, xs: seq<T>, x: T, atMost: (T, T) -> bool)
    requires Comparator(atMost)
    ensures TiedWith(Insert(z, xs, atMost), x, atMost) == TiedWith([z] + xs, x, atMost)
  {
    assert ([z] + xs)[1..] == xs;
    if xs != [] && !atMost(z, xs[0]) {
      InsertStable(z, xs[1..], x, atMost);
      assert ([z] + xs[1..])[1..] == xs[1..];
      var r := Insert(z, xs, atMost);
      assert r[1..] == Insert(z, xs[1..], atMost);
      assert !(Ties(atMost, z, x) && Ties(atMost, xs[0], x));
    }
  }

  /** Sorting keeps tied members in the order in which they came. */
  lemma {:induction false} SortStable<T(!new)>(xs: seq<T>, x: T, atMost: (T, T) -> bool)
    requires Comparator(atMost)
    ensures TiedWith(Sort(xs, atMost), x, atMost) == TiedWith(xs, x, atMost)
  {
    hide Comparator, Insert, Ties;
    if xs != [] {
      SortStable(xs[1..], x, atMost);
      InsertStable(xs[0], Sort(xs[1..], atMost), x, atMost);
      var r := [xs[0]] + Sort(xs[1..], atMost);
      assert r[1..] == Sort(xs[1..], atMost);
    }
  }

  lemma {:induction false} TiedConcat<T>(a: seq<T>, b: seq<T>, x: T, atMost: (T, T) -> bool)
    ensures TiedWith(a + b, x, atMost) == TiedWith(a, x, atMost) + TiedWith(b, x, atMost)
  {
    hide Ties;
    if a == [] {
      assert a + b == b;
    } else {
      assert (a + b)[1..] == a[1..] + b && (a + b)[0] == a[0];
      TiedConcat(a[1..], b, x, atMost);
      var first := if Ties(atMost, a[0], x) then [a[0]] else [];
      assert first + (TiedWith(a[1..], x, atMost) + TiedWith(b, x, atMost)) == first + TiedWith(a[1..], x, atMost) + TiedWith(b, x, atMost);
    }
  }

  /** The sequence with the members at i and j exchanged. */
  function Swapped<T>(xs: seq<T>, i: nat, j: nat): (r: seq<T>)
    requires i < |xs| && j < |xs|
    ensures |r| == |xs|
  {
    xs[i := xs[j]][j := xs[i]]
  }

  lemma SwapPermutes<T>(xs: seq<T>, i: nat, j: nat)
    requires i < j < |xs|
    ensures multiset(Swapped(xs, i, j)) == multiset(xs)
  {
  }

  /** A member in front of which n tied members stand is the tied member at n. */
  lemma TiedAt<T>(xs: seq<T>, i: nat, x: T, atMost: (T, T) -> bool)
    requires i < |xs| && Ties(atMost, xs[i], x)
    ensures var n := |TiedWith(xs[..i], x, atMost)|;
            n < |TiedWith(xs, x, atMost)| && TiedWith(xs, x, atMost)[n] == xs[i]
  {
    hide Ties;
    assert xs == xs[..i] + xs[i..];
    TiedConcat(xs[..i], xs[i..], x, atMost);
  }

  /** Exchanging two different members that tie shows in the result of a sort. */
  lemma SwapShows<T(!new)>(xs: seq<T>, i: nat, j: nat, atMost: (T, T) -> bool)
    requires Comparator(atMost) && i < j < |xs| && Ties(atMost, xs[i], xs[j]) && xs[i] != xs[j]
    ensures Sort(Swapped(xs, i, j), atMost) != Sort(xs, atMost)
  {
    hide Sort, TiedWith;
    var ys, x := Swapped(xs, i, j), xs[j];
    assert Ties(atMost, x, x) && ys[..i] == xs[..i];
    hide Comparator, Ties;
    TiedAt(xs, i, x, atMost);
    TiedAt(ys, i, x, atMost);
    SortStable(xs, x, atMost);
    SortStable(ys, x, atMost);
  }

  /** Where two different members tie, as positions. */
  lemma TiedPositions<T(!new)>(xs: seq<T>, atMost: (T, T) -> bool) returns (i: nat, j: nat)
    requires !Separates(atMost, xs)
    ensures i < j < |xs| && Ties(atMost, xs[i], xs[j]) && xs[i] != xs[j]
  {
    var a, b :| a in xs && b in xs && atMost(a, b) && atMost(b, a) && a != b;
    i :| 0 <= i < |xs| && xs[i] == a;
    j :| 0 <= j < |xs| && xs[j] == b;
    if j < i {
      i, j := j, i;
    }
  }

  /** No rearrangement shows in the result of a sort exactly when the comparator ties no two different members. */
  lemma SortForgetsExactly<T(!new)>(xs: seq<T>, atMost: (T, T) -> bool)
    requires Comparator(atMost)
    ensures (forall ys :: multiset(ys) == multiset(xs) ==> Sort(ys, atMost) == Sort(xs, atMost)) <==> Separates(atMost, xs)
  {
    hide Sort, Comparator;
    if Separates(atMost, xs) {
      forall ys | multiset(ys) == multiset(xs) ensures Sort(ys, atMost) == Sort(xs, atMost) {
        SortForgetsOrder(xs, ys, atMost);
      }
    } else {
      var i, j := TiedPositions(xs, atMost);
      SwapPermutes(xs, i, j);
      SwapShows(xs, i, j, atMost);
    }
  }

  /* ---- Distinct keys ---- */

  ghost predicate DistinctBy<T(!new), K(!new)>(xs: seq<T>, key: T -> K) {
    forall i, j :: 0 <= i < j < |xs| ==> key(xs[i]) != key(xs[j])
  }

  /** A rearrangement keeps the keys distinct. */
  lemma DistinctPermutes<T(!new), K(!new)>(a: seq<T>, b: seq<T>, key: T -> K)
    requires DistinctBy(a, key) && multiset(a) == multiset(b)
    ensures DistinctBy(b, key)
  {
    SameMembers(a, b);
    forall i, j | 0 <= i < j < |b| ensures key(b[i]) != key(b[j]) {
      if key(b[i]) == key(b[j]) {
        assert b[i] in a && b[j] in a;
        var k :| 0 <= k < |a| && a[k] == b[i];
        TwiceInside(b, i, j);
        OnceInside(a, k, key);
        assert false;
      }
    }
  }

  lemma TwiceInside<T>(b: seq<T>, i: nat, j: nat)
    requires i < j < |b| && b[i] == b[j]
    ensures multiset(b)[b[i]] >= 2
  {
    assert b == b[..j] + [b[j]] + b[j + 1..];
    assert b[..j][i] == b[i];
    assert b[i] in multiset(b[..j]);
  }

  lemma OnceInside<T(!new), K(!new)>(a: seq<T>, k: nat, key: T -> K)
    requires DistinctBy(a, key) && k < |a|
    ensures multiset(a)[a[k]] == 1
  {
    assert a == a[..k] + [a[k]] + a[k + 1..];
    assert a[k] !in a[..k] && a[k] !in a[k + 1..];
    assert a[k] !in multiset(a[..k]) && a[k] !in multiset(a[k + 1..]);
  }
}
