/** The near-duplicate filter of the newsletter's ranker. */
module Dedup {
  import opened Utf16
  import opened Reals
  import opened EditDistance

  /** `rest` stands for the fields the filter does not look at. */
  datatype Item = Item(title: Text, rest: nat)

  const LIMIT: real := 0.85

  /** What is left of n characters after d edits, as a share. */
  function Left(d: int, n: nat): real
    requires n > 0
  {
    (n - d) as real / n as real
  }

  lemma LeftRange(d: nat, n: nat)
    requires 0 < n && d <= n
    ensures 0.0 <= Left(d, n) <= 1.0 && (Left(d, n) == 1.0 <==> d == 0)
  {
    Fraction(n - d, n);
    assert (n - d) as real == Left(d, n) * n as real;
  }

  /** One minus the edit distance over the longer length; the texts are passed longer first. */
  function Similarity(a: Text, b: Text): real {
    var longer, shorter := if |a| > |b| then a else b, if |a| > |b| then b else a;
    if |longer| == 0 then 1.0 else Left(Distance(longer, shorter), |longer|)
  }

  /** Symmetric, between 0 and 1, and 1 exactly for equal texts. */
  lemma SimilarityRange(a: Text, b: Text)
    ensures Similarity(a, b) == Similarity(b, a)
    ensures 0.0 <= Similarity(a, b) <= 1.0
    ensures Similarity(a, b) == 1.0 <==> a == b
  {
    hide Distance, Left;
    Symmetric(a, b);
    Bounds(a, b);
    ZeroIffEqual(a, b);
    var n := if |a| > |b| then |a| else |b|;
    if n > 0 { LeftRange(Distance(a, b), n); }
  }

  lemma LeftTimesLength(r: real, d: int, n: nat)
    requires n > 0 && r == Left(d, n)
    ensures r * n as real == (n - d) as real
  {
  }

  lemma OneDistance(a: Text, b: Text, d: nat)
    requires IsEditDistance(a, b, d)
    ensures d == Distance(a, b)
  {
    var s :| Transforms(s, a, b) && Cost(s) == d;
    NoScriptIsCheaper(s);
    var w := Witness(a, b);
  }

  lemma SimilarityIsLeft(a: Text, b: Text, n: nat)
    requires n == if |a| >= |b| then |a| else |b|
    ensures if n == 0 then Similarity(a, b) == 1.0 else Similarity(a, b) == Left(Distance(a, b), n)
  {
    hide Distance, Left;
    Symmetric(a, b);
  }

  lemma SimilarityTimesLength(a: Text, b: Text, n: nat)
    requires n > 0 && n == if |a| >= |b| then |a| else |b|
    ensures Similarity(a, b) * n as real == (n - Distance(a, b)) as real
  {
    hide Distance, Left, Similarity;
    SimilarityIsLeft(a, b, n);
    LeftTimesLength(Similarity(a, b), Distance(a, b), n);
  }

  /** Two empty texts have similarity 1; otherwise it is the part of the longer length that a cheapest edit script leaves. */
  lemma SimilarityIs(a: Text, b: Text, d: nat, n: nat)
    requires IsEditDistance(a, b, d) && n == if |a| >= |b| then |a| else |b|
    ensures n == 0 ==> Similarity(a, b) == 1.0
    ensures n > 0 ==> Similarity(a, b) * n as real == (n - d) as real
  {
    hide IsEditDistance, Distance, Left, Similarity;
    OneDistance(a, b, d);
    if n == 0 {
      SimilarityIsLeft(a, b, n);
    } else {
      SimilarityTimesLength(a, b, n);
    }
  }

  method ComputeSimilarity(a: Text, b: Text) returns (r: real)
    ensures r == Similarity(a, b)
  {
    hide IsEditDistance, Distance;
    var longer, shorter := b, a;
    if |a| > |b| { longer, shorter := a, b; }
    if |longer| == 0 { return 1.0; }
    var d := LevenshteinDistance(longer, shorter);
    r := (|longer| - d) as real / |longer| as real;
  }

  /** `normalize` stands for the lower-casing and character filter, whatever it does. */
  function Alike(x: Item, y: Item, normalize: Text -> Text): real {
    Similarity(normalize(x.title), normalize(y.title))
  }

  predicate Duplicates(x: Item, y: Item, normalize: Text -> Text) {
    Alike(x, y, normalize) > LIMIT
  }

  predicate DuplicateOfSome(kept: seq<Item>, y: Item, normalize: Text -> Text) {
    exists i :: 0 <= i < |kept| && Duplicates(kept[i], y, normalize)
  }

  function Kept(items: seq<Item>, normalize: Text -> Text): seq<Item> {
    if items == [] then []
    else
      var before := Kept(Init(items), normalize);
      if DuplicateOfSome(before, Last(items), normalize) then before else before + [Last(items)]
  }

  lemma KeptNothing(normalize: Text -> Text)
    ensures Kept([], normalize) == []
  {
  }

  /** seen.some over the titles kept so far. */
  method SomeSimilar(seen: seq<Text>, normalized: Text) returns (found: bool)
    ensures found <==> exists n :: 0 <= n < |seen| && Similarity(seen[n], normalized) > LIMIT
  {
    hide Similarity;
    for k := 0 to |seen|
      invariant forall n | 0 <= n < k :: Similarity(seen[n], normalized) <= LIMIT
    {
      var s := ComputeSimilarity(seen[k], normalized);
      if s > LIMIT {
        return true;
      }
    }
    return false;
  }

  lemma KeptAppend(items: seq<Item>, x: Item, normalize: Text -> Text)
    ensures var kept := Kept(items, normalize);
            Kept(items + [x], normalize) == if DuplicateOfSome(kept, x, normalize) then kept else kept + [x]
  {
    assert Init(items + [x]) == items;
  }

  method DeduplicateItems(items: seq<Item>, normalize: Text -> Text) returns (kept: seq<Item>)
    ensures kept == Kept(items, normalize)
  {
    hide Similarity, Kept;
    kept := [];
    var seen: seq<Text> := [];
    KeptNothing(normalize);
    assert items[..0] == [];
    for i := 0 to |items|
      invariant kept == Kept(items[..i], normalize)
      invariant |seen| == |kept| && forall k | 0 <= k < |kept| :: seen[k] == normalize(kept[k].title)
    {
      TakeOneMore(items, i);
      KeptAppend(items[..i], items[i], normalize);
      var normalized := normalize(items[i].title);
      var isDuplicate := SomeSimilar(seen, normalized);
      if !isDuplicate {
        seen := seen + [normalized];
        kept := kept + [items[i]];
      }
    }
    assert items[..|items|] == items;
  }

  // ---- what the filter promises ----

  ghost predicate PairwiseDifferent(items: seq<Item>, normalize: Text -> Text) {
    forall i, j | 0 <= i < |items| && 0 <= j < |items| && i != j :: Alike(items[i], items[j], normalize) <= 0.85
  }

  /** No two kept titles are more than 0.85 similar. */
  lemma {:induction false} KeptAreDifferent(items: seq<Item>, normalize: Text -> Text)
    ensures PairwiseDifferent(Kept(items, normalize), normalize)
  {
    hide Similarity;
    if items == [] {
    } else {
      KeptAreDifferent(Init(items), normalize);
      var before, last := Kept(Init(items), normalize), Last(items);
      if !DuplicateOfSome(before, last, normalize) {
        forall i | 0 <= i < |before| ensures !Duplicates(before[i], last, normalize) && !Duplicates(last, before[i], normalize) {
          SimilarityRange(normalize(before[i].title), normalize(last.title));
        }
      }
    }
  }

  /** The kept items stand at ascending positions, and whatever is not kept resembles an earlier kept one. */
  ghost predicate Positions(items: seq<Item>, kept: seq<Item>, at: seq<nat>, normalize: Text -> Text) {
    && |at| == |kept|
    && (forall k | 0 <= k < |at| :: at[k] < |items| && kept[k] == items[at[k]])
    && (forall k, l | 0 <= k < l < |at| :: at[k] < at[l])
    && (forall i: nat | i < |items| && i !in at :: DuplicateOfEarlier(items, at, i, normalize))
  }

  ghost predicate DuplicateOfEarlier(items: seq<Item>, at: seq<nat>, i: nat, normalize: Text -> Text)
    requires i < |items|
  {
    exists k :: 0 <= k < |at| && at[k] < i && Alike(items[at[k]], items[i], normalize) > 0.85
  }

  lemma EarlierStays(items: seq<Item>, at: seq<nat>, more: seq<nat>, i: nat, normalize: Text -> Text)
    requires items != [] && i < |items| - 1 && at <= more && DuplicateOfEarlier(Init(items), at, i, normalize)
    ensures DuplicateOfEarlier(items, more, i, normalize)
  {
    hide Alike;
    var k :| 0 <= k < |at| && at[k] < i && Alike(Init(items)[at[k]], Init(items)[i], normalize) > 0.85;
    assert more[k] == at[k] && Alike(items[more[k]], items[i], normalize) > 0.85;
  }

  lemma LastIsKept(items: seq<Item>, kept: seq<Item>, at: seq<nat>, normalize: Text -> Text)
    requires items != [] && Positions(Init(items), kept, at, normalize)
    ensures Positions(items, kept + [Last(items)], at + [|items| - 1], normalize)
  {
    hide DuplicateOfEarlier;
    var n, more := |items| - 1, at + [|items| - 1];
    forall i: nat | i < |items| && i !in more ensures DuplicateOfEarlier(items, more, i, normalize) {
      assert i != n by { assert more[|at|] == n; }
      assert i !in at by { assert forall k | 0 <= k < |at| :: at[k] == more[k]; }
      EarlierStays(items, at, more, i, normalize);
    }
  }

  lemma LastIsDropped(items: seq<Item>, kept: seq<Item>, at: seq<nat>, normalize: Text -> Text)
    requires items != [] && Positions(Init(items), kept, at, normalize) && DuplicateOfSome(kept, Last(items), normalize)
    ensures Positions(items, kept, at, normalize)
  {
    hide Alike;
    var n := |items| - 1;
    var k :| 0 <= k < |kept| && Duplicates(kept[k], Last(items), normalize);
    assert Duplicates(items[at[k]], items[n], normalize);
    forall i: nat | i < |items| && i !in at ensures DuplicateOfEarlier(items, at, i, normalize) {
      if i < n { EarlierStays(items, at, at, i, normalize); }
    }
  }

  lemma {:induction false} KeptPositions(items: seq<Item>, normalize: Text -> Text) returns (at: seq<nat>)
    ensures Positions(items, Kept(items, normalize), at, normalize)
  {
    if items == [] {
      at := [];
    } else {
      var before := Kept(Init(items), normalize);
      at := KeptPositions(Init(items), normalize);
      hide Positions, DuplicateOfSome;
      if DuplicateOfSome(before, Last(items), normalize) {
        LastIsDropped(items, before, at, normalize);
      } else {
        LastIsKept(items, before, at, normalize);
        at := at + [|items| - 1];
      }
    }
  }

  lemma DifferentFromEarlier(items: seq<Item>, normalize: Text -> Text)
    requires items != [] && PairwiseDifferent(items, normalize)
    ensures PairwiseDifferent(Init(items), normalize) && !DuplicateOfSome(Init(items), Last(items), normalize)
  {
    hide Alike;
    var n, before := |items| - 1, Init(items);
    forall i, j | 0 <= i < n && 0 <= j < n && i != j ensures Alike(before[i], before[j], normalize) <= 0.85 {
      assert before[i] == items[i] && before[j] == items[j];
    }
    forall i | 0 <= i < n ensures !Duplicates(before[i], Last(items), normalize) {
      assert before[i] == items[i] && Last(items) == items[n];
    }
  }

  lemma {:induction false} DifferentAreKept(items: seq<Item>, normalize: Text -> Text)
    requires PairwiseDifferent(items, normalize)
    ensures Kept(items, normalize) == items
  {
    if items == [] {
    } else {
      hide Kept, PairwiseDifferent, DuplicateOfSome;
      DifferentFromEarlier(items, normalize);
      DifferentAreKept(Init(items), normalize);
      KeptAppend(Init(items), Last(items), normalize);
      assert items == Init(items) + [Last(items)];
    }
  }

  /** Filtering again changes nothing. */
  lemma Idempotent(items: seq<Item>, normalize: Text -> Text)
    ensures Kept(Kept(items, normalize), normalize) == Kept(items, normalize)
  {
    KeptAreDifferent(items, normalize);
    DifferentAreKept(Kept(items, normalize), normalize);
  }
}
