/** Reciprocal rank fusion of two ranked result lists. */
module RankFusion {
  import opened Utf16
  import opened Sorting

  /** `body` stands for the fields that are only carried along. */
  datatype Hit = Hit(docId: Text, body: nat, score: real)

  datatype Ranked = Ranked(hit: Hit, rank: nat)

  const RRF_K: nat := 60
  const TOP_K: nat := 20
  const FINAL_K: nat := 10

  function Weight(rank: nat): real {
    1.0 / (RRF_K + rank) as real
  }

  /** scores.get, then add to its score, or set. The map iterates in insertion order. */
  function Bump(scores: seq<Hit>, r: Ranked): seq<Hit> {
    if scores == [] then [r.hit.(score := Weight(r.rank))]
    else if scores[0].docId == r.hit.docId then [scores[0].(score := scores[0].score + Weight(r.rank))] + scores[1..]
    else [scores[0]] + Bump(scores[1..], r)
  }

  function Tally(list: seq<Ranked>): seq<Hit> {
    if list == [] then [] else Bump(Tally(Init(list)), Last(list))
  }

  function ScoreOf(h: Hit): real {
    h.score
  }

  function Fused(knn: seq<Ranked>, text: seq<Ranked>, topK: nat): seq<Hit> {
    var sorted := SortDescending(Tally(knn + text), ScoreOf);
    if |sorted| <= topK then sorted else sorted[..topK]
  }

  /** One turn of either loop. */
  lemma TallyNext(before: seq<Ranked>, list: seq<Ranked>, i: nat)
    requires i < |list|
    ensures Tally(before + list[..i + 1]) == Bump(Tally(before + list[..i]), list[i])
  {
    assert Init(before + list[..i + 1]) == before + list[..i];
  }

  lemma TallyNothing()
    ensures Tally([] + []) == []
  {
  }

  method RrfFusion(knnRanked: seq<Ranked>, textRanked: seq<Ranked>, topK: nat) returns (fused: seq<Hit>)
    ensures fused == Fused(knnRanked, textRanked, topK)
  {
    hide Bump, Tally, SortDescending;
    var scores: seq<Hit> := [];
    TallyNothing();
    for i := 0 to |knnRanked|
      invariant scores == Tally([] + knnRanked[..i])
    {
      TallyNext([], knnRanked, i);
      scores := Bump(scores, knnRanked[i]);
    }
    assert [] + knnRanked[..|knnRanked|] == knnRanked + [];
    for i := 0 to |textRanked|
      invariant scores == Tally(knnRanked + textRanked[..i])
    {
      TallyNext(knnRanked, textRanked, i);
      scores := Bump(scores, textRanked[i]);
    }
    assert textRanked[..|textRanked|] == textRanked;
    var sorted := SortDescending(scores, ScoreOf);
    fused := if |sorted| <= topK then sorted else sorted[..topK];
  }

  // ---- reference: the sum over a document's occurrences ----

  function Total(list: seq<Ranked>, id: Text): real {
    if list == [] then 0.0
    else Total(Init(list), id) + if Last(list).hit.docId == id then Weight(Last(list).rank) else 0.0
  }

  ghost predicate Occurs(list: seq<Ranked>, id: Text) {
    exists i :: 0 <= i < |list| && list[i].hit.docId == id
  }

  ghost predicate Distinct(hits: seq<Hit>) {
    forall i, j | 0 <= i < j < |hits| :: hits[i].docId != hits[j].docId
  }

  ghost predicate Has(hits: seq<Hit>, id: Text) {
    exists h :: h in hits && h.docId == id
  }

  /** One entry a document, with its total so far. */
  ghost predicate Tallies(scores: seq<Hit>, list: seq<Ranked>) {
    && Distinct(scores)
    && (forall h <- scores :: h.score == Total(list, h.docId))
    && (forall id :: Has(scores, id) <==> Occurs(list, id))
  }

  /** Where the entry is found, |scores| if nowhere. */
  lemma {:induction false} BumpAt(scores: seq<Hit>, r: Ranked) returns (k: nat)
    ensures k <= |scores| && forall j | 0 <= j < k :: scores[j].docId != r.hit.docId
    ensures k < |scores| ==> scores[k].docId == r.hit.docId
    ensures Bump(scores, r) == if k == |scores| then scores + [r.hit.(score := Weight(r.rank))]
                               else scores[k := scores[k].(score := scores[k].score + Weight(r.rank))]
  {
    hide Weight;
    if scores == [] || scores[0].docId == r.hit.docId {
      k := 0;
    } else {
      var j := BumpAt(scores[1..], r);
      k := j + 1;
    }
  }

  lemma BumpIds(scores: seq<Hit>, r: Ranked, id: Text)
    ensures Has(Bump(scores, r), id) <==> Has(scores, id) || id == r.hit.docId
  {
    hide Bump, Weight;
    var k := BumpAt(scores, r);
    var out := Bump(scores, r);
    assert k < |out| && out[k] in out && out[k].docId == r.hit.docId;
    if k == |scores| {
      assert forall h :: h in out <==> h in scores || h == out[k];
    } else {
      SameIds(scores, out, id);
    }
  }

  lemma BumpEntries(scores: seq<Hit>, r: Ranked)
    requires Distinct(scores)
    ensures Distinct(Bump(scores, r))
    ensures forall h <- Bump(scores, r) :: h.docId != r.hit.docId ==> h in scores
    ensures forall h <- Bump(scores, r) :: h.docId == r.hit.docId ==>
              (!Has(scores, h.docId) && h.score == Weight(r.rank))
              || (exists g :: g in scores && g.docId == h.docId && h.score == g.score + Weight(r.rank))
  {
    hide Bump, Weight;
    var k := BumpAt(scores, r);
    if k < |scores| { assert scores[k] in scores; }
  }

  lemma SameIds(a: seq<Hit>, b: seq<Hit>, id: Text)
    requires |a| == |b| && forall i | 0 <= i < |a| :: a[i].docId == b[i].docId
    ensures Has(a, id) <==> Has(b, id)
  {
    if Has(a, id) {
      var i :| 0 <= i < |a| && a[i].docId == id;
      assert b[i] in b;
    }
    if Has(b, id) {
      var i :| 0 <= i < |b| && b[i].docId == id;
      assert a[i] in a;
    }
  }

  lemma OccursInit(list: seq<Ranked>, id: Text)
    requires list != []
    ensures Occurs(list, id) <==> Occurs(Init(list), id) || Last(list).hit.docId == id
  {
    if Occurs(Init(list), id) {
      var i :| 0 <= i < |Init(list)| && Init(list)[i].hit.docId == id;
      assert list[i].hit.docId == id;
    }
    if Last(list).hit.docId == id { assert list[|list| - 1].hit.docId == id; }
    if i :| 0 <= i < |list| && list[i].hit.docId == id {
      if i < |list| - 1 { assert Init(list)[i].hit.docId == id; }
    }
  }

  lemma {:induction false} NoOccurrenceNoTotal(list: seq<Ranked>, id: Text)
    requires !Occurs(list, id)
    ensures Total(list, id) == 0.0
  {
    if list == [] {
    } else {
      OccursInit(list, id);
      NoOccurrenceNoTotal(Init(list), id);
    }
  }

  lemma BumpScores(scores: seq<Hit>, list: seq<Ranked>, h: Hit)
    requires list != [] && Tallies(scores, Init(list)) && h in Bump(scores, Last(list))
    ensures h.score == Total(list, h.docId)
  {
    BumpEntries(scores, Last(list));
    if h.docId == Last(list).hit.docId && !Has(scores, h.docId) {
      assert !Occurs(Init(list), h.docId);
      NoOccurrenceNoTotal(Init(list), h.docId);
    }
  }

  /** The accumulated map agrees with the reference on every list. */
  lemma {:induction false} TallyIsTotal(list: seq<Ranked>)
    ensures Tallies(Tally(list), list)
  {
    if list == [] {
    } else {
      var scores := Tally(Init(list));
      TallyIsTotal(Init(list));
      BumpEntries(scores, Last(list));
      hide Bump, Has, Total, Occurs;
      forall h <- Tally(list) ensures h.score == Total(list, h.docId) { BumpScores(scores, list, h); }
      forall id ensures Has(Tally(list), id) <==> Occurs(list, id) {
        BumpIds(scores, Last(list), id);
        OccursInit(list, id);
      }
    }
  }

  lemma {:induction false} TotalSplits(a: seq<Ranked>, b: seq<Ranked>, id: Text)
    ensures Total(a + b, id) == Total(a, id) + Total(b, id)
  {
    if b == [] {
      Nothing(a);
    } else {
      assert Init(a + b) == a + Init(b) && Last(a + b) == Last(b);
      TotalSplits(a, Init(b), id);
    }
  }

  lemma OccursSplits(a: seq<Ranked>, b: seq<Ranked>, id: Text)
    ensures Occurs(a + b, id) <==> Occurs(a, id) || Occurs(b, id)
  {
    if i :| 0 <= i < |a| && a[i].hit.docId == id { assert (a + b)[i].hit.docId == id; }
    if i :| 0 <= i < |b| && b[i].hit.docId == id { assert (a + b)[|a| + i].hit.docId == id; }
    if i :| 0 <= i < |a + b| && (a + b)[i].hit.docId == id {
      if i < |a| { assert a[i].hit.docId == id; } else { assert b[i - |a|].hit.docId == id; }
    }
  }

  // ---- the fused list ----

  lemma {:induction false} PermutationKeepsDistinct(a: seq<Hit>, b: seq<Hit>)
    requires multiset(a) == multiset(b) && Distinct(a)
    ensures Distinct(b)
  {
    forall i, j | 0 <= i < j < |b| ensures b[i].docId != b[j].docId {
      assert b[i] in multiset(a) && b[j] in multiset(a);
      var k :| 0 <= k < |a| && a[k] == b[i];
      var l :| 0 <= l < |a| && a[l] == b[j];
      if b[i] == b[j] {
        TwiceInMultiset(b, i, j);
        OnceInMultiset(a, k);
      }
    }
  }

  lemma TwiceInMultiset(s: seq<Hit>, i: nat, j: nat)
    requires i < j < |s| && s[i] == s[j]
    ensures multiset(s)[s[i]] >= 2
  {
    assert s == s[..i] + [s[i]] + s[i + 1..j] + [s[j]] + s[j + 1..];
  }

  lemma OnceInMultiset(s: seq<Hit>, k: nat)
    requires k < |s| && Distinct(s)
    ensures multiset(s)[s[k]] == 1
  {
    assert s == s[..k] + [s[k]] + s[k + 1..];
    assert s[k] !in s[..k] && s[k] !in s[k + 1..];
  }

  /**
   Each document once, scored with its total over both lists, in descending order; every
   document of the lists is there unless the list is full and nothing in it scores lower.
   */
  ghost predicate IsFusion(r: seq<Hit>, knn: seq<Ranked>, text: seq<Ranked>, topK: nat) {
    && Distinct(r)
    && (forall h <- r :: h.score == Total(knn, h.docId) + Total(text, h.docId))
    && (forall h <- r :: Occurs(knn, h.docId) || Occurs(text, h.docId))
    && Descending(r, ScoreOf)
    && |r| <= topK
    && (forall id :: (Occurs(knn, id) || Occurs(text, id)) && !Has(r, id) ==>
          |r| == topK && forall h <- r :: h.score >= Total(knn, id) + Total(text, id))
  }

  /** What a sorted permutation of the tally, cut at topK, has to say for itself. */
  lemma FusedScores(scores: seq<Hit>, sorted: seq<Hit>, r: seq<Hit>, knn: seq<Ranked>, text: seq<Ranked>)
    requires Tallies(scores, knn + text) && multiset(sorted) == multiset(scores) && r <= sorted
    ensures Distinct(r)
    ensures forall h <- r :: h.score == Total(knn, h.docId) + Total(text, h.docId)
    ensures forall h <- r :: Occurs(knn, h.docId) || Occurs(text, h.docId)
  {
    hide Total, Occurs;
    PermutationKeepsDistinct(scores, sorted);
    forall h <- r
      ensures h.score == Total(knn, h.docId) + Total(text, h.docId) && (Occurs(knn, h.docId) || Occurs(text, h.docId))
    {
      assert h in multiset(sorted);
      assert h in scores && Has(scores, h.docId);
      TotalSplits(knn, text, h.docId);
      OccursSplits(knn, text, h.docId);
    }
  }

  /** A document that the cut leaves out. */
  lemma OmittedIsLower(scores: seq<Hit>, sorted: seq<Hit>, r: seq<Hit>, knn: seq<Ranked>, text: seq<Ranked>, id: Text)
    requires Tallies(scores, knn + text) && multiset(sorted) == multiset(scores) && r <= sorted
    requires forall i, j | 0 <= i < j < |sorted| :: sorted[i].score >= sorted[j].score
    requires (Occurs(knn, id) || Occurs(text, id)) && !Has(r, id)
    ensures |r| < |sorted| && forall h <- r :: h.score >= Total(knn, id) + Total(text, id)
  {
    hide Total, Occurs;
    assert forall i | 0 <= i < |r| :: r[i] in r && sorted[i].docId != id;
    OccursSplits(knn, text, id);
    TotalSplits(knn, text, id);
    assert Has(scores, id);
    var g :| g in scores && g.docId == id;
    assert g in multiset(sorted);
    var k :| 0 <= k < |sorted| && sorted[k] == g;
  }

  lemma FusedIsSortedCut(knn: seq<Ranked>, text: seq<Ranked>, topK: nat)
    ensures var sorted, r := SortDescending(Tally(knn + text), ScoreOf), Fused(knn, text, topK);
            && multiset(sorted) == multiset(Tally(knn + text))
            && (forall i, j | 0 <= i < j < |sorted| :: sorted[i].score >= sorted[j].score)
            && Descending(r, ScoreOf) && |r| <= topK && r <= sorted && (|r| == topK || r == sorted)
  {
    hide Tally, SortDescending;
    var scores := Tally(knn + text);
    SortSorts(scores, ScoreOf);
    var sorted := SortDescending(scores, ScoreOf);
    assert forall i, j | 0 <= i < j < |sorted| :: ScoreOf(sorted[i]) >= ScoreOf(sorted[j]);
  }

  lemma FusionSpec(knn: seq<Ranked>, text: seq<Ranked>, topK: nat)
    ensures IsFusion(Fused(knn, text, topK), knn, text, topK)
  {
    hide Fused, Tally, SortDescending, Total, Occurs, Tallies, Distinct, Has, Descending;
    var scores := Tally(knn + text);
    var sorted, r := SortDescending(scores, ScoreOf), Fused(knn, text, topK);
    TallyIsTotal(knn + text);
    FusedIsSortedCut(knn, text, topK);
    FusedScores(scores, sorted, r, knn, text);
    forall id | (Occurs(knn, id) || Occurs(text, id)) && !Has(r, id)
      ensures |r| == topK && forall h <- r :: h.score >= Total(knn, id) + Total(text, id)
    {
      OmittedIsLower(scores, sorted, r, knn, text, id);
    }
  }

  // ---- hybrid search ----

  function RankAll(hits: seq<Hit>): seq<Ranked> {
    seq(|hits|, i requires 0 <= i < |hits| => Ranked(hits[i], i + 1))
  }

  method HybridSearch(knnHits: seq<Hit>, textHits: seq<Hit>) returns (fused: seq<Hit>)
    ensures fused == Fused(RankAll(knnHits), RankAll(textHits), FINAL_K)
    ensures IsFusion(fused, RankAll(knnHits), RankAll(textHits), 10)
  {
    FusionSpec(RankAll(knnHits), RankAll(textHits), FINAL_K);
    fused := RrfFusion(RankAll(knnHits), RankAll(textHits), FINAL_K);
  }

  lemma WeightRange(rank: nat)
    requires 1 <= rank <= TOP_K
    ensures 1.0 / 80.0 <= Weight(rank) <= 1.0 / 61.0
  {
    var n := (RRF_K + rank) as real;
    assert 61.0 <= n <= 80.0;
    assert Weight(rank) * n == 1.0;
  }

  /** In a list of distinct documents ranked from 1 a document weighs what its rank does. */
  lemma {:induction false} TotalOfDistinct(hits: seq<Hit>, n: nat, id: Text)
    requires n <= |hits| <= TOP_K && Distinct(hits)
    ensures var list := RankAll(hits)[..n];
            if Occurs(list, id) then 1.0 / 80.0 <= Total(list, id) <= 1.0 / 61.0 else Total(list, id) == 0.0
  {
    var list := RankAll(hits)[..n];
    if n == 0 {
    } else {
      TakeOneMore(RankAll(hits), n - 1);
      TotalOfDistinct(hits, n - 1, id);
      OccursInit(list, id);
      WeightRange(n);
    }
  }

  /** Two weights from the first twenty ranks add up to more than any one. */
  lemma TwoBeatOne(x: real, y: real, u: real, v: real)
    requires 1.0 / 80.0 <= x && 1.0 / 80.0 <= y && u <= 1.0 / 61.0 && v <= 1.0 / 61.0 && (u == 0.0 || v == 0.0)
    ensures x + y > u + v
  {
  }

  lemma SearchTotals(hits: seq<Hit>, id: Text)
    requires |hits| <= TOP_K && Distinct(hits)
    ensures Occurs(RankAll(hits), id) <==> Has(hits, id)
    ensures if Has(hits, id) then 1.0 / 80.0 <= Total(RankAll(hits), id) <= 1.0 / 61.0 else Total(RankAll(hits), id) == 0.0
  {
    var list := RankAll(hits);
    assert list[..|hits|] == list;
    TotalOfDistinct(hits, |hits|, id);
    if i :| 0 <= i < |list| && list[i].hit.docId == id { assert hits[i] in hits; }
    if h :| h in hits && h.docId == id {
      var i :| 0 <= i < |hits| && hits[i] == h;
      assert list[i].hit.docId == id;
    }
  }

  lemma HigherIsEarlier(r: seq<Hit>, i: nat, j: nat)
    requires i < |r| && j < |r| && Descending(r, ScoreOf) && r[i].score > r[j].score
    ensures i < j
  {
    assert ScoreOf(r[i]) > ScoreOf(r[j]);
  }

  /** In a fused list a document with a higher total stands before one with a lower. */
  lemma HigherStandsBefore(r: seq<Hit>, knn: seq<Ranked>, text: seq<Ranked>, topK: nat, d: Text, j: nat)
    requires IsFusion(r, knn, text, topK) && Occurs(knn, d) && j < |r|
    requires Total(knn, d) + Total(text, d) > Total(knn, r[j].docId) + Total(text, r[j].docId)
    ensures exists i :: 0 <= i < j && r[i].docId == d
  {
    hide Total, Occurs, Distinct, Descending;
    assert r[j] in r && Has(r, d);
    var g :| g in r && g.docId == d;
    var i :| 0 <= i < |r| && r[i] == g;
    HigherIsEarlier(r, i, j);
  }

  /** With at most 20 distinct documents a list, whoever is in both lists ranks above whoever is in one. */
  lemma BothListsBeatOne(knnHits: seq<Hit>, textHits: seq<Hit>, d: Text, e: Text, j: nat)
    requires |knnHits| <= TOP_K && |textHits| <= TOP_K && Distinct(knnHits) && Distinct(textHits)
    requires Has(knnHits, d) && Has(textHits, d) && !(Has(knnHits, e) && Has(textHits, e))
    requires var r := Fused(RankAll(knnHits), RankAll(textHits), FINAL_K); j < |r| && r[j].docId == e
    ensures var r := Fused(RankAll(knnHits), RankAll(textHits), FINAL_K);
            exists i :: 0 <= i < j && r[i].docId == d
  {
    hide Fused, RankAll, Total, Occurs, IsFusion, Distinct, Has;
    var knn, text := RankAll(knnHits), RankAll(textHits);
    SearchTotals(knnHits, d);
    SearchTotals(textHits, d);
    SearchTotals(knnHits, e);
    SearchTotals(textHits, e);
    TwoBeatOne(Total(knn, d), Total(text, d), Total(knn, e), Total(text, e));
    FusionSpec(knn, text, FINAL_K);
    HigherStandsBefore(Fused(knn, text, FINAL_K), knn, text, FINAL_K, d, j);
  }

  // ---- scores by position ----

  lemma {:induction false} TotalByPosition(hits: seq<Hit>, n: nat, i: nat)
    requires i < |hits| && n <= |hits| && Distinct(hits)
    ensures Total(RankAll(hits)[..n], hits[i].docId) == if i < n then 1.0 / (61 + i) as real else 0.0
  {
    if n == 0 {
    } else {
      TakeOneMore(RankAll(hits), n - 1);
      TotalByPosition(hits, n - 1, i);
      assert (RRF_K + n) as real == (60 + n) as real;
    }
  }

  /** i is where the document stands in the list, or the list's length if it is not there. */
  ghost predicate StandsAt(hits: seq<Hit>, id: Text, i: nat) {
    i <= |hits| && (if i < |hits| then hits[i].docId == id else !Has(hits, id))
  }

  lemma TotalAt(hits: seq<Hit>, id: Text, i: nat)
    requires Distinct(hits) && StandsAt(hits, id, i)
    ensures Total(RankAll(hits), id) == if i < |hits| then 1.0 / (61 + i) as real else 0.0
  {
    var list := RankAll(hits);
    if i < |hits| {
      assert list[..|hits|] == list;
      TotalByPosition(hits, |hits|, i);
    } else {
      assert forall k | 0 <= k < |list| :: list[k].hit == hits[k] && hits[k] in hits;
      NoOccurrenceNoTotal(list, id);
    }
  }

  /** A fused score is 1 / (61 + position) for each of the two lists the document is in. */
  lemma FusedScoreByPosition(knnHits: seq<Hit>, textHits: seq<Hit>, h: Hit, i: nat, j: nat)
    requires Distinct(knnHits) && Distinct(textHits) && h in Fused(RankAll(knnHits), RankAll(textHits), FINAL_K)
    requires StandsAt(knnHits, h.docId, i) && StandsAt(textHits, h.docId, j)
    ensures h.score == (if i < |knnHits| then 1.0 / (61 + i) as real else 0.0) + (if j < |textHits| then 1.0 / (61 + j) as real else 0.0)
  {
    FusionSpec(RankAll(knnHits), RankAll(textHits), FINAL_K);
    TotalAt(knnHits, h.docId, i);
    TotalAt(textHits, h.docId, j);
  }

  // ---- what a document brings along, and ties ----

  /** Where the document occurs first, or the list's length. */
  function First(list: seq<Ranked>, id: Text): (k: nat)
    ensures k <= |list| && (k < |list| ==> list[k].hit.docId == id) && forall i | 0 <= i < k :: list[i].hit.docId != id
  {
    if list == [] then 0 else if list[0].hit.docId == id then 0 else 1 + First(list[1..], id)
  }

  lemma FirstInit(list: seq<Ranked>, id: Text)
    requires list != []
    ensures var n := |list| - 1;
            First(list, id) == if First(Init(list), id) < n then First(Init(list), id) else if Last(list).hit.docId == id then n else n + 1
  {
    hide First;
    var k, n := First(Init(list), id), |list| - 1;
    assert forall i | 0 <= i < n :: Init(list)[i] == list[i];
    var m := First(list, id);
    if k < n { assert list[k].hit.docId == id; }
    if m < n { assert Init(list)[m].hit.docId == id; }
  }

  /** The entries stand in the order in which their documents occur first, and carry what came with them then. */
  ghost predicate FromFirst(scores: seq<Hit>, list: seq<Ranked>) {
    && (forall h <- scores :: First(list, h.docId) < |list| && h.body == list[First(list, h.docId)].hit.body)
    && (forall i, j | 0 <= i < j < |scores| :: First(list, scores[i].docId) < First(list, scores[j].docId))
  }

  lemma NotCounted(list: seq<Ranked>, scores: seq<Hit>, id: Text)
    requires Tallies(scores, list) && forall j | 0 <= j < |scores| :: scores[j].docId != id
    ensures First(list, id) == |list|
  {
    assert !Has(scores, id);
    var k := First(list, id);
    if k < |list| { assert Occurs(list, id); }
  }

  lemma FirstStays(list: seq<Ranked>, id: Text)
    requires list != [] && First(Init(list), id) < |list| - 1
    ensures First(list, id) == First(Init(list), id) && list[First(list, id)] == Init(list)[First(list, id)]
  {
    FirstInit(list, id);
  }

  /** What is known of the entries stays so when the list grows. */
  lemma LongerListKeepsFirst(scores: seq<Hit>, list: seq<Ranked>)
    requires list != [] && FromFirst(scores, Init(list))
    ensures FromFirst(scores, list)
  {
    hide First;
    forall h <- scores ensures First(list, h.docId) == First(Init(list), h.docId) && list[First(list, h.docId)] == Init(list)[First(list, h.docId)] {
      FirstStays(list, h.docId);
    }
    assert forall i | 0 <= i < |scores| :: scores[i] in scores;
  }

  lemma NewEntryFromFirst(scores: seq<Hit>, list: seq<Ranked>, h: Hit)
    requires list != [] && FromFirst(scores, Init(list)) && First(Init(list), h.docId) == |list| - 1
    requires h.docId == Last(list).hit.docId && h.body == Last(list).hit.body
    ensures FromFirst(scores + [h], list)
  {
    hide First;
    LongerListKeepsFirst(scores, list);
    FirstInit(list, h.docId);
    forall g <- scores ensures First(list, g.docId) < |list| - 1 {
      FirstStays(list, g.docId);
    }
    assert forall i | 0 <= i < |scores| :: scores[i] in scores;
  }

  lemma SameEntriesFromFirst(a: seq<Hit>, b: seq<Hit>, list: seq<Ranked>)
    requires FromFirst(a, list) && |a| == |b| && forall i | 0 <= i < |a| :: b[i].docId == a[i].docId && b[i].body == a[i].body
    ensures FromFirst(b, list)
  {
    hide First;
    forall h <- b ensures First(list, h.docId) < |list| && h.body == list[First(list, h.docId)].hit.body {
      var i :| 0 <= i < |b| && b[i] == h;
      assert a[i] in a;
    }
  }

  lemma {:induction false} TallyFromFirst(list: seq<Ranked>)
    ensures FromFirst(Tally(list), list)
  {
    if list == [] {
    } else {
      hide First, FromFirst, Tallies, Weight, Bump;
      var before, last := Tally(Init(list)), Last(list);
      TallyFromFirst(Init(list));
      TallyIsTotal(Init(list));
      var k := BumpAt(before, last);
      if k == |before| {
        NotCounted(Init(list), before, last.hit.docId);
        NewEntryFromFirst(before, list, last.hit.(score := Weight(last.rank)));
      } else {
        LongerListKeepsFirst(before, list);
        SameEntriesFromFirst(before, Tally(list), list);
      }
    }
  }

  /** Each fused hit carries what its document's first occurrence did, and of two with one score the earlier found stands first. */
  lemma FusedFromFirst(knn: seq<Ranked>, text: seq<Ranked>, topK: nat)
    ensures var list, r := knn + text, Fused(knn, text, topK);
            && (forall h <- r :: First(list, h.docId) < |list| && h.body == list[First(list, h.docId)].hit.body)
            && (forall i, j | 0 <= i < j < |r| && r[i].score == r[j].score :: First(list, r[i].docId) < First(list, r[j].docId))
  {
    var list, r := knn + text, Fused(knn, text, topK);
    var scores := Tally(list);
    var sorted := SortDescending(scores, ScoreOf);
    var rank := (h: Hit) => First(list, h.docId);
    assert r <= sorted;
    TallyFromFirst(list);
    SortKeepsTies(scores, ScoreOf, rank);
    SortSorts(scores, ScoreOf);
    hide First, Fused, Tally, SortDescending;
    forall h <- r ensures First(list, h.docId) < |list| && h.body == list[First(list, h.docId)].hit.body {
      assert h in multiset(sorted);
      assert h in scores;
    }
    forall i, j | 0 <= i < j < |r| && r[i].score == r[j].score ensures First(list, r[i].docId) < First(list, r[j].docId) {
      assert ScoreOf(sorted[i]) == ScoreOf(sorted[j]);
      assert rank(sorted[i]) < rank(sorted[j]);
    }
  }
}
