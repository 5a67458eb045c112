/** `sort((a, b) => b.score - a.score)`: descending and stable, as the language guarantees. */
module Sorting {
  function Insert<T>(x: T, xs: seq<T>, score: T -> real): seq<T> {
    if xs == [] || score(x) >= score(xs[0]) then [x] + xs else [xs[0]] + Insert(x, xs[1..], score)
  }

  function SortDescending<T>(xs: seq<T>, score: T -> real): seq<T> {
    if xs == [] then [] else Insert(xs[0], SortDescending(xs[1..], score), score)
  }

  ghost predicate Descending<T>(xs: seq<T>, score: T -> real) {
    forall i, j | 0 <= i < j < |xs| :: score(xs[i]) >= score(xs[j])
  }

  lemma {:induction false} InsertAdds<T>(x: T, xs: seq<T>, score: T -> real)
    ensures multiset(Insert(x, xs, score)) == multiset([x]) + multiset(xs)
  {
    if xs == [] || score(x) >= score(xs[0]) {
    } else {
      InsertAdds(x, xs[1..], score);
      assert xs == [xs[0]] + xs[1..];
    }
  }

  lemma DescendingCons<T>(x: T, xs: seq<T>, score: T -> real)
    requires Descending(xs, score) && forall y <- xs :: score(x) >= score(y)
    ensures Descending([x] + xs, score)
  {
    assert forall i | 0 <= i < |xs| :: xs[i] in xs;
  }

  lemma {:induction false} InsertSorts<T>(x: T, xs: seq<T>, score: T -> real)
    requires Descending(xs, score)
    ensures Descending(Insert(x, xs, score), score)
  {
    if xs == [] || score(x) >= score(xs[0]) {
      assert forall y <- xs :: score(xs[0]) >= score(y);
      DescendingCons(x, xs, score);
    } else {
      var rest := Insert(x, xs[1..], score);
      InsertSorts(x, xs[1..], score);
      InsertAdds(x, xs[1..], score);
      hide Descending;
      forall y <- rest ensures score(xs[0]) >= score(y) {
        assert y in multiset(rest);
        assert y in xs[1..] ==> score(xs[0]) >= score(y) by { HeadIsHighest(xs, score); }
      }
      DescendingCons(xs[0], rest, score);
    }
  }

  lemma HeadIsHighest<T>(xs: seq<T>, score: T -> real)
    requires xs != [] && Descending(xs, score)
    ensures forall y <- xs :: score(xs[0]) >= score(y)
  {
  }

  /** The same elements, in descending order. */
  lemma {:induction false} SortSorts<T>(xs: seq<T>, score: T -> real)
    ensures Descending(SortDescending(xs, score), score)
    ensures multiset(SortDescending(xs, score)) == multiset(xs)
    ensures |SortDescending(xs, score)| == |xs|
  {
    if xs == [] {
    } else {
      SortSorts(xs[1..], score);
      InsertSorts(xs[0], SortDescending(xs[1..], score), score);
      InsertAdds(xs[0], SortDescending(xs[1..], score), score);
      assert xs == [xs[0]] + xs[1..];
    }
    assert |multiset(SortDescending(xs, score))| == |multiset(xs)|;
  }

  /** Elements of equal score stand in the order of their rank. */
  ghost predicate TiesInOrder<T(!new)>(xs: seq<T>, score: T -> real, rank: T -> nat) {
    forall i, j | 0 <= i < j < |xs| && score(xs[i]) == score(xs[j]) :: rank(xs[i]) < rank(xs[j])
  }

  lemma TiesCons<T(!new)>(x: T, xs: seq<T>, score: T -> real, rank: T -> nat)
    requires TiesInOrder(xs, score, rank) && forall y <- xs :: score(x) == score(y) ==> rank(x) < rank(y)
    ensures TiesInOrder([x] + xs, score, rank)
  {
    assert forall i | 0 <= i < |xs| :: xs[i] in xs;
  }

  lemma {:induction false} InsertKeepsTies<T(!new)>(x: T, xs: seq<T>, score: T -> real, rank: T -> nat)
    requires TiesInOrder(xs, score, rank) && forall y <- xs :: rank(x) < rank(y)
    ensures TiesInOrder(Insert(x, xs, score), score, rank)
  {
    if xs == [] || score(x) >= score(xs[0]) {
      TiesCons(x, xs, score, rank);
    } else {
      var rest := Insert(x, xs[1..], score);
      InsertKeepsTies(x, xs[1..], score, rank);
      InsertAdds(x, xs[1..], score);
      forall y <- rest ensures score(xs[0]) == score(y) ==> rank(xs[0]) < rank(y) {
        assert y in multiset(rest);
        if y != x { var i :| 1 <= i < |xs| && xs[i] == y; }
      }
      hide TiesInOrder;
      TiesCons(xs[0], rest, score, rank);
    }
  }

  /** Sorting elements of rising rank leaves ties in that order. */
  lemma {:induction false} SortKeepsTies<T(!new)>(xs: seq<T>, score: T -> real, rank: T -> nat)
    requires forall i, j | 0 <= i < j < |xs| :: rank(xs[i]) < rank(xs[j])
    ensures TiesInOrder(SortDescending(xs, score), score, rank)
  {
    if xs == [] {
    } else {
      var rest := SortDescending(xs[1..], score);
      SortKeepsTies(xs[1..], score, rank);
      SortSorts(xs[1..], score);
      forall y <- rest ensures rank(xs[0]) < rank(y) {
        assert y in multiset(rest);
        var i :| 0 <= i < |xs[1..]| && xs[1..][i] == y;
        assert xs[i + 1] == y;
      }
      InsertKeepsTies(xs[0], rest, score, rank);
    }
  }

  function Scoring<T>(xs: seq<T>, score: T -> real, r: real): seq<T> {
    if xs == [] then []
    else (if score(xs[0]) == r then [xs[0]] else []) + Scoring(xs[1..], score, r)
  }

  /** The element by itself if it has this score. */
  function One<T>(x: T, score: T -> real, r: real): seq<T> {
    if score(x) == r then [x] else []
  }

  lemma ScoringCons<T>(x: T, xs: seq<T>, score: T -> real, r: real)
    ensures Scoring([x] + xs, score, r) == One(x, score, r) + Scoring(xs, score, r)
  {
    assert ([x] + xs)[1..] == xs;
  }

  lemma OneOfTwo<T>(x: T, h: T, rest: seq<T>, score: T -> real, r: real)
    requires score(x) != score(h)
    ensures One(h, score, r) + (One(x, score, r) + rest) == One(x, score, r) + (One(h, score, r) + rest)
  {
    if score(x) == r {
      assert One(h, score, r) == [];
    } else {
      assert One(x, score, r) == [];
    }
  }

  lemma {:induction false} InsertIsStable<T>(x: T, xs: seq<T>, score: T -> real, r: real)
    ensures Scoring(Insert(x, xs, score), score, r) == One(x, score, r) + Scoring(xs, score, r)
  {
    hide Scoring, One;
    if xs == [] || score(x) >= score(xs[0]) {
      ScoringCons(x, xs, score, r);
    } else {
      var h, rest := xs[0], xs[1..];
      InsertIsStable(x, rest, score, r);
      ScoringCons(h, Insert(x, rest, score), score, r);
      assert xs == [h] + rest;
      ScoringCons(h, rest, score, r);
      OneOfTwo(x, h, Scoring(rest, score, r), score, r);
    }
  }

  /** Elements of equal score keep their order. */
  lemma {:induction false} SortIsStable<T>(xs: seq<T>, score: T -> real, r: real)
    ensures Scoring(SortDescending(xs, score), score, r) == Scoring(xs, score, r)
  {
    if xs == [] {
    } else {
      hide Scoring, Insert, One;
      SortIsStable(xs[1..], score, r);
      InsertIsStable(xs[0], SortDescending(xs[1..], score), score, r);
      assert xs == [xs[0]] + xs[1..];
      ScoringCons(xs[0], xs[1..], score, r);
    }
  }
}
