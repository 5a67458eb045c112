/**
 The in-memory vector store. Its map iterates in insertion order, so it is kept as the
 sequence of its documents, no two under one id.
 */
module VectorStore {
  import opened Utf16
  import opened Wrappers
  import opened Chunker
  import opened Vectors
  import opened Sorting

  datatype Document = Document(id: Text, content: Text, embedding: Vector, metadata: Metadata)

  datatype Hit = Hit(document: Document, score: real)

  predicate Matches(d: Document, filter: Metadata) {
    forall k <- filter :: k in d.metadata && d.metadata[k] == filter[k]
  }

  /** Map.set: in place if the id is there, at the end otherwise. */
  function Put(docs: seq<Document>, d: Document): seq<Document> {
    if docs == [] then [d]
    else if docs[0].id == d.id then [d] + docs[1..]
    else [docs[0]] + Put(docs[1..], d)
  }

  /** No two documents under one id. */
  ghost predicate Keyed(docs: seq<Document>) {
    forall i, j | 0 <= i < j < |docs| :: docs[i].id != docs[j].id
  }

  lemma PutBehind(first: Document, docs: seq<Document>, d: Document, j: nat)
    requires j <= |docs|
    ensures [first] + (if j < |docs| then docs[j := d] else docs + [d]) ==
            var all := [first] + docs; if j + 1 < |all| then all[j + 1 := d] else all + [d]
  {
  }

  /** A document takes the place of the one with its id, or the last place. */
  lemma {:induction false} PutAt(docs: seq<Document>, d: Document) returns (k: nat)
    ensures k <= |docs| && (forall i | 0 <= i < k :: docs[i].id != d.id) && (k < |docs| ==> docs[k].id == d.id)
    ensures Put(docs, d) == if k < |docs| then docs[k := d] else docs + [d]
  {
    if docs == [] {
      k := 0;
    } else if docs[0].id == d.id {
      k := 0;
      assert Put(docs, d) == docs[0 := d];
    } else {
      var j := PutAt(docs[1..], d);
      k := j + 1;
      PutBehind(docs[0], docs[1..], d, j);
      assert docs == [docs[0]] + docs[1..];
    }
  }

  lemma PutKeepsKeyed(docs: seq<Document>, d: Document)
    requires Keyed(docs)
    ensures Keyed(Put(docs, d))
  {
    var k := PutAt(docs, d);
  }

  function PutAll(docs: seq<Document>, more: seq<Document>): seq<Document> {
    if more == [] then docs else Put(PutAll(docs, Init(more)), Last(more))
  }

  lemma PutMembers(docs: seq<Document>, d: Document, e: Document)
    ensures d in Put(docs, d)
    ensures e in docs && e.id != d.id ==> e in Put(docs, d)
    ensures e in Put(docs, d) ==> e == d || e in docs
  {
    var k := PutAt(docs, d);
    var out := Put(docs, d);
    assert out[k] == d;
    if e in docs && e.id != d.id {
      var i :| 0 <= i < |docs| && docs[i] == e;
      assert out[i] == e;
    }
  }

  /** The last document of an id is stored, the others stay, and nothing else is there; the store stays keyed. */
  lemma {:induction false} PutAllIs(docs: seq<Document>, more: seq<Document>, e: Document)
    ensures e in docs && (forall d <- more :: d.id != e.id) ==> e in PutAll(docs, more)
    ensures forall i | 0 <= i < |more| && (forall j | i < j < |more| :: more[j].id != more[i].id) :: more[i] in PutAll(docs, more)
    ensures e in PutAll(docs, more) ==> e in docs || e in more
    ensures Keyed(docs) ==> Keyed(PutAll(docs, more))
  {
    if more == [] {
    } else {
      var before, d := Init(more), Last(more);
      PutAllIs(docs, before, e);
      PutMembers(PutAll(docs, before), d, e);
      if Keyed(docs) { PutKeepsKeyed(PutAll(docs, before), d); }
      forall i | 0 <= i < |more| && (forall j | i < j < |more| :: more[j].id != more[i].id) ensures more[i] in PutAll(docs, more) {
        if i < |before| {
          assert before[i] == more[i] && more[|before|].id != more[i].id;
          assert forall j | i < j < |before| :: before[j] == more[j];
          PutMembers(PutAll(docs, before), d, more[i]);
        }
      }
    }
  }

  /** The documents that match, or that do not, in their order. */
  function Select(docs: seq<Document>, filter: Metadata, matching: bool): seq<Document> {
    if docs == [] then []
    else (if Matches(docs[0], filter) == matching then [docs[0]] else []) + Select(docs[1..], filter, matching)
  }

  /** Only asked for embeddings at least as long as the query. */
  function Score(v: Vector, d: Document, sqrt: real -> real): real {
    if |v| <= |d.embedding| then CosineOf(v, d.embedding, sqrt) else 0.0
  }

  function Hits(docs: seq<Document>, v: Vector, sqrt: real -> real): seq<Hit> {
    seq(|docs|, i requires 0 <= i < |docs| => Hit(docs[i], Score(v, docs[i], sqrt)))
  }

  function Take<T>(xs: seq<T>, n: nat): seq<T> {
    if |xs| <= n then xs else xs[..n]
  }

  ghost predicate Dimension(docs: seq<Document>, n: nat) {
    forall d <- docs :: |d.embedding| == n
  }

  /** No document that matches scores NaN, against which sorting is left to the engine. */
  ghost predicate Comparable(docs: seq<Document>, v: Vector, filter: Metadata) {
    forall d <- docs :: Matches(d, filter) ==> |v| <= |d.embedding|
  }

  lemma SelectSplits(docs: seq<Document>, i: nat, filter: Metadata, matching: bool)
    requires i < |docs|
    ensures Select(docs[..i + 1], filter, matching) ==
            Select(docs[..i], filter, matching) + if Matches(docs[i], filter) == matching then [docs[i]] else []
  {
    hide Matches;
    TakeOneMore(docs, i);
    SelectConcat(docs[..i], [docs[i]], filter, matching);
  }

  lemma {:induction false} SelectConcat(a: seq<Document>, b: seq<Document>, filter: Metadata, matching: bool)
    ensures Select(a + b, filter, matching) == Select(a, filter, matching) + Select(b, filter, matching)
  {
    hide Matches;
    if a == [] {
      Nothing(b);
    } else {
      SelectConcat(a[1..], b, filter, matching);
      DropFirst(a, b);
      Assoc(if Matches(a[0], filter) == matching then [a[0]] else [], Select(a[1..], filter, matching), Select(b, filter, matching));
    }
  }

  lemma {:induction false} SelectMembers(docs: seq<Document>, filter: Metadata, matching: bool)
    ensures forall d :: d in Select(docs, filter, matching) <==> d in docs && Matches(d, filter) == matching
  {
    if docs == [] {
    } else {
      SelectMembers(docs[1..], filter, matching);
      assert docs == [docs[0]] + docs[1..];
    }
  }

  function ScoreOf(h: Hit): real {
    h.score
  }

  /** What a search returns: the matching documents by descending score, cut at topK. */
  function Found(docs: seq<Document>, v: Vector, topK: nat, filter: Metadata, sqrt: real -> real): seq<Hit>
  {
    Take(SortDescending(Hits(Select(docs, filter, true), v, sqrt), ScoreOf), topK)
  }

  class MemoryVectorStore {
    var docs: seq<Document>
    const sqrt: real -> real

    constructor (sqrt: real -> real)
      ensures docs == [] && this.sqrt == sqrt
    {
      docs, this.sqrt := [], sqrt;
    }

    method Upsert(more: seq<Document>)
      modifies this
      ensures docs == PutAll(old(docs), more)
      ensures Keyed(old(docs)) ==> Keyed(docs)
    {
      for i := 0 to |more|
        invariant docs == PutAll(old(docs), more[..i])
      {
        assert Init(more[..i + 1]) == more[..i];
        docs := Put(docs, more[i]);
      }
      assert more[..|more|] == more;
      if |more| > 0 { PutAllIs(old(docs), more, more[0]); }
    }

    method Search(v: Vector, topK: nat, filter: Metadata) returns (results: seq<Hit>)
      requires Comparable(docs, v, filter)
      ensures results == Found(docs, v, topK, filter, sqrt)
    {
      hide Matches, CosineOf;
      results := [];
      for i := 0 to |docs|
        invariant results == Hits(Select(docs[..i], filter, true), v, sqrt)
      {
        var doc := docs[i];
        SelectSplits(docs, i, filter, true);
        if Matches(doc, filter) {
          var score := Cosine(v, doc.embedding, sqrt);
          results := results + [Hit(doc, score.value)];
        }
      }
      assert docs[..|docs|] == docs;
      results := Take(SortDescending(results, ScoreOf), topK);
    }

    method DeleteByMetadata(filter: Metadata) returns (deleted: nat)
      modifies this
      ensures docs == Select(old(docs), filter, false)
      ensures forall d :: d in docs <==> d in old(docs) && exists k :: k in filter && (k !in d.metadata || d.metadata[k] != filter[k])
      ensures deleted == |old(docs)| - |docs|
    {
      var kept := [];
      deleted := 0;
      for i := 0 to |docs|
        invariant docs == old(docs)
        invariant kept == Select(docs[..i], filter, false) && deleted == i - |kept|
      {
        SelectSplits(docs, i, filter, false);
        if Matches(docs[i], filter) {
          deleted := deleted + 1;
        } else {
          kept := kept + [docs[i]];
        }
      }
      assert docs[..|docs|] == docs;
      SelectMembers(docs, filter, false);
      docs := kept;
    }

    method Count() returns (n: nat)
      ensures n == |docs|
    {
      n := |docs|;
    }
  }

  /** The document is among the results, or none of them scores below it. */
  ghost predicate Placed(d: Document, r: seq<Hit>, score: real) {
    (exists h :: h in r && h.document == d) || (forall h <- r :: h.score >= score)
  }

  lemma TakeSorted(hits: seq<Hit>, n: nat)
    ensures var r := Take(SortDescending(hits, ScoreOf), n);
            && (forall h <- r :: h in hits)
            && Descending(r, ScoreOf)
            && forall h <- hits :: Placed(h.document, r, h.score)
  {
    var sorted := SortDescending(hits, ScoreOf);
    var r := Take(sorted, n);
    SortSorts(hits, ScoreOf);
    forall h <- r ensures h in hits { assert h in multiset(sorted); }
    assert forall i, j | 0 <= i < j < |sorted| :: ScoreOf(sorted[i]) >= ScoreOf(sorted[j]);
    hide SortDescending;
    forall h <- hits ensures Placed(h.document, r, h.score) {
      assert h in multiset(hits);
      var j :| 0 <= j < |sorted| && sorted[j] == h;
      if j < |r| { assert r[j] in r; }
    }
  }

  /** A search returns as many matching documents as asked for and available, best first, and leaves out none better. */
  lemma SearchIsTopK(docs: seq<Document>, v: Vector, topK: nat, filter: Metadata, sqrt: real -> real)
    ensures var r := Found(docs, v, topK, filter, sqrt);
            && |r| == (if topK <= |Select(docs, filter, true)| then topK else |Select(docs, filter, true)|)
            && (forall h <- r :: h.document in docs && Matches(h.document, filter) && h.score == Score(v, h.document, sqrt))
            && Descending(r, ScoreOf)
            && (forall d <- docs :: Matches(d, filter) ==> Placed(d, r, Score(v, d, sqrt)))
  {
    hide Matches, Score;
    var chosen := Select(docs, filter, true);
    var hits := Hits(chosen, v, sqrt);
    SelectMembers(docs, filter, true);
    SortSorts(hits, ScoreOf);
    TakeSorted(hits, topK);
    var r := Found(docs, v, topK, filter, sqrt);
    forall d <- docs | Matches(d, filter) ensures Placed(d, r, Score(v, d, sqrt)) {
      var i :| 0 <= i < |chosen| && chosen[i] == d;
      assert hits[i] in hits;
    }
  }

  /** Whatever is found has every field of the filter, and its cosine with the query as its score. */
  lemma FoundMatches(docs: seq<Document>, v: Vector, topK: nat, filter: Metadata, sqrt: real -> real, h: Hit)
    requires h in Found(docs, v, topK, filter, sqrt)
    ensures h.document in docs && forall k <- filter :: k in h.document.metadata && h.document.metadata[k] == filter[k]
    ensures |v| <= |h.document.embedding| ==> h.score == CosineOf(v, h.document.embedding, sqrt)
  {
    SearchIsTopK(docs, v, topK, filter, sqrt);
    hide Found, CosineOf;
    assert Matches(h.document, filter) && h.score == Score(v, h.document, sqrt);
  }
}
