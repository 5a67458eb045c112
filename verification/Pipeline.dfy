/** The semantic diff of a page against the store, and the loop over crawled pages. */
module Pipeline {
  import opened Utf16
  import opened Wrappers
  import opened Chunker
  import opened Reals
  import opened Vectors
  import opened Sorting
  import opened VectorStore
  import opened Ingest

  datatype DiffResult = DiffResult(
    sourceId: Text, competitor: Text, changeScore: real,
    newChunks: seq<Chunk>, unchangedChunks: seq<Chunk>, totalChunks: nat)

  function ChunkTexts(chunks: seq<Chunk>): seq<Text> {
    seq(|chunks|, i requires 0 <= i < |chunks| => chunks[i].text)
  }

  /** A chunk is new when nothing stored for its source comes up to the threshold. */
  ghost predicate IsNew(docs: seq<Document>, s: Text, v: Vector, sqrt: real -> real) {
    forall d <- docs :: From(d, s) ==> Score(v, d, sqrt) < 0.85
  }

  ghost function Novelty(docs: seq<Document>, s: Text, vs: seq<Vector>, sqrt: real -> real): seq<bool> {
    seq(|vs|, i requires 0 <= i < |vs| => IsNew(docs, s, vs[i], sqrt))
  }

  /** The elements flagged as wanted, in order. */
  function Pick<T>(xs: seq<T>, flags: seq<bool>, want: bool): seq<T>
    requires |xs| == |flags|
  {
    if xs == [] then [] else Pick(Init(xs), Init(flags), want) + if Last(flags) == want then [Last(xs)] else []
  }

  function SourceIdOf(chunks: seq<Chunk>): Text {
    if chunks == [] then UNKNOWN else chunks[0].sourceId
  }

  ghost function DiffOf(docs: seq<Document>, chunks: seq<Chunk>, vs: seq<Vector>, competitor: Text, sqrt: real -> real): DiffResult
    requires |chunks| == |vs|
  {
    var s := SourceIdOf(chunks);
    var flags := Novelty(docs, s, vs, sqrt);
    var novel := Pick(chunks, flags, true);
    DiffResult(s, competitor, if chunks == [] then 0.0 else |novel| as real / |chunks| as real,
               novel, Pick(chunks, flags, false), |chunks|)
  }

  /** The best match alone decides whether a chunk is new. */
  lemma BestMatchDecides(docs: seq<Document>, s: Text, v: Vector, sqrt: real -> real)
    ensures var r := Found(docs, v, 1, SourceFilter(s), sqrt);
            IsNew(docs, s, v, sqrt) <==> |r| == 0 || r[0].score < THRESHOLD
  {
    hide Matches, SourceFilter, Score;
    var r := Found(docs, v, 1, SourceFilter(s), sqrt);
    SearchIsTopK(docs, v, 1, SourceFilter(s), sqrt);
    SelectMembers(docs, SourceFilter(s), true);
    forall d <- docs ensures Matches(d, SourceFilter(s)) <==> From(d, s) { FilterIsSource(d, s); }
    if |r| > 0 {
      var h := r[0];
      assert h in r;
      forall d <- docs | From(d, s) ensures Score(v, d, sqrt) <= h.score {
        assert Placed(d, r, Score(v, d, sqrt));
      }
    } else {
      assert Of(docs, s) == [];
    }
  }

  method SemanticDiff(chunks: seq<Chunk>, embeddings: seq<Vector>, store: MemoryVectorStore, competitor: Text)
    returns (diff: DiffResult)
    requires |chunks| == |embeddings|
    requires forall v <- embeddings :: Comparable(store.docs, v, SourceFilter(SourceIdOf(chunks)))
    ensures diff == DiffOf(store.docs, chunks, embeddings, competitor, store.sqrt)
  {
    hide IsNew, SourceFilter, Found;
    var sourceId := if |chunks| > 0 then chunks[0].sourceId else UNKNOWN;
    ghost var flags := Novelty(store.docs, sourceId, embeddings, store.sqrt);
    var newChunks, unchangedChunks := [], [];
    for i := 0 to |chunks|
      invariant newChunks == Pick(chunks[..i], flags[..i], true)
      invariant unchangedChunks == Pick(chunks[..i], flags[..i], false)
    {
      TakeOneMore(chunks, i);
      TakeOneMore(flags, i);
      assert embeddings[i] in embeddings;
      var matches := store.Search(embeddings[i], 1, SourceFilter(sourceId));
      BestMatchDecides(store.docs, sourceId, embeddings[i], store.sqrt);
      if |matches| == 0 || matches[0].score < THRESHOLD {
        newChunks := newChunks + [chunks[i]];
      } else {
        unchangedChunks := unchangedChunks + [chunks[i]];
      }
    }
    assert chunks[..|chunks|] == chunks && flags[..|chunks|] == flags;
    var changeScore := if |chunks| == 0 then 0.0 else |newChunks| as real / |chunks| as real;
    diff := DiffResult(sourceId, competitor, changeScore, newChunks, unchangedChunks, |chunks|);
  }

  lemma PickLast<T>(xs: seq<T>, flags: seq<bool>, b: bool)
    requires |xs| == |flags| && xs != []
    ensures Last(flags) == b ==> Pick(xs, flags, b) == Pick(Init(xs), Init(flags), b) + [Last(xs)]
    ensures Last(flags) != b ==> Pick(xs, flags, b) == Pick(Init(xs), Init(flags), b)
  {
  }

  ghost predicate Splits<T>(a: seq<T>, b: seq<T>, all: seq<T>) {
    multiset(a) + multiset(b) == multiset(all) && |a| + |b| == |all|
  }

  lemma OneMoreSplits<T>(a: seq<T>, b: seq<T>, all: seq<T>, e: T)
    requires Splits(a, b, all)
    ensures Splits(a + [e], b, all + [e])
    ensures Splits(a, b + [e], all + [e])
  {
    assert multiset(all + [e]) == multiset(all) + multiset{e};
    assert multiset(a + [e]) + multiset(b) == multiset(all + [e]);
    assert multiset(a) + multiset(b + [e]) == multiset(all + [e]);
  }

  lemma {:induction false} PickSplits<T>(xs: seq<T>, flags: seq<bool>)
    requires |xs| == |flags|
    ensures Splits(Pick(xs, flags, true), Pick(xs, flags, false), xs)
  {
    if xs == [] {
      assert Pick(xs, flags, true) == [] && Pick(xs, flags, false) == [];
    } else {
      hide Splits, Pick;
      PickSplits(Init(xs), Init(flags));
      var a, b := Pick(Init(xs), Init(flags), true), Pick(Init(xs), Init(flags), false);
      OneMoreSplits(a, b, Init(xs), Last(xs));
      assert Init(xs) + [Last(xs)] == xs;
      PickLast(xs, flags, true);
      PickLast(xs, flags, false);
    }
  }

  lemma {:induction false} PickedOnly<T>(xs: seq<T>, flags: seq<bool>, b: bool, x: T)
    requires |xs| == |flags|
    ensures x in Pick(xs, flags, b) ==> x in xs
  {
    if xs == [] {
    } else {
      PickedOnly(Init(xs), Init(flags), b, x);
    }
  }

  lemma {:induction false} PickedIff<T>(xs: seq<T>, flags: seq<bool>, b: bool, i: nat)
    requires |xs| == |flags| && i < |xs| && forall j | 0 <= j < |xs| && j != i :: xs[j] != xs[i]
    ensures xs[i] in Pick(xs, flags, b) <==> flags[i] == b
  {
    PickLast(xs, flags, b);
    if i == |xs| - 1 {
      PickedOnly(Init(xs), Init(flags), b, xs[i]);
    } else {
      assert Init(xs)[i] == xs[i] && forall j | 0 <= j < |Init(xs)| :: Init(xs)[j] == xs[j];
      PickedIff(Init(xs), Init(flags), b, i);
      assert xs[|xs| - 1] != xs[i];
    }
  }

  /** A chunk is reported as new exactly when every document of its source is less than 0.85 similar to it. */
  lemma NewIffNoneSimilar(docs: seq<Document>, chunks: seq<Chunk>, vs: seq<Vector>, competitor: Text, sqrt: real -> real, i: nat)
    requires |chunks| == |vs| && i < |chunks| && forall j | 0 <= j < |chunks| && j != i :: chunks[j] != chunks[i]
    requires forall d <- docs :: SourceKey in d.metadata && d.metadata[SourceKey] == chunks[0].sourceId ==> |vs[i]| <= |d.embedding|
    ensures var diff := DiffOf(docs, chunks, vs, competitor, sqrt);
            var similar := exists d :: d in docs && SourceKey in d.metadata && d.metadata[SourceKey] == chunks[0].sourceId
                                       && CosineOf(vs[i], d.embedding, sqrt) >= 0.85;
            && (chunks[i] in diff.newChunks <==> !similar)
            && (chunks[i] in diff.unchangedChunks <==> similar)
            && diff.totalChunks == |chunks| && diff.competitor == competitor && diff.sourceId == chunks[0].sourceId
            && diff.changeScore * |chunks| as real == |diff.newChunks| as real
  {
    hide Pick, CosineOf;
    var s := SourceIdOf(chunks);
    var flags := Novelty(docs, s, vs, sqrt);
    PickedIff(chunks, flags, true, i);
    PickedIff(chunks, flags, false, i);
    assert flags[i] == IsNew(docs, s, vs[i], sqrt);
    UndoDivision(|Pick(chunks, flags, true)| as real, |chunks| as real);
  }

  /** Every chunk is in exactly one of the two lists, so the change score lies between 0 and 1. */
  lemma DiffCovers(docs: seq<Document>, chunks: seq<Chunk>, vs: seq<Vector>, competitor: Text, sqrt: real -> real)
    requires |chunks| == |vs|
    ensures var diff := DiffOf(docs, chunks, vs, competitor, sqrt);
            && multiset(diff.newChunks) + multiset(diff.unchangedChunks) == multiset(chunks)
            && 0.0 <= diff.changeScore <= 1.0
  {
    hide Pick, Novelty;
    var flags := Novelty(docs, SourceIdOf(chunks), vs, sqrt);
    assert |flags| == |vs| by { NoveltyLength(docs, SourceIdOf(chunks), vs, sqrt); }
    PickSplits(chunks, flags);
    if chunks != [] { Fraction(|Pick(chunks, flags, true)|, |chunks|); }
  }

  lemma NoveltyLength(docs: seq<Document>, s: Text, vs: seq<Vector>, sqrt: real -> real)
    ensures |Novelty(docs, s, vs, sqrt)| == |vs|
  {
  }

  // ---- an unchanged page ----

  lemma {:induction false} NonePickedIff<T>(xs: seq<T>, flags: seq<bool>)
    requires |xs| == |flags|
    ensures Pick(xs, flags, true) == [] <==> forall i | 0 <= i < |flags| :: !flags[i]
  {
    if xs == [] {
    } else {
      NonePickedIff(Init(xs), Init(flags));
      assert forall i | 0 <= i < |Init(flags)| :: Init(flags)[i] == flags[i];
    }
  }

  lemma ZeroVectorScoresZero(v: Vector, w: Vector, sqrt: real -> real)
    requires |v| <= |w| && IsSquareRoot(sqrt) && Dot(v, v) == 0.0
    ensures CosineOf(v, w, sqrt) == 0.0
  {
    ZeroSquare(sqrt(0.0));
  }

  /** Where a source holds exactly one page's documents, that page's vectors find themselves, unless they are zero. */
  lemma StoredVectorIsNewIff(docs: seq<Document>, st: StoredPage, i: nat, sqrt: real -> real)
    requires Of(docs, st.page.sourceId) == Documents(st) && IsSquareRoot(sqrt) && i < |st.vectors|
    ensures IsNew(docs, st.page.sourceId, st.vectors[i], sqrt) <==> Dot(st.vectors[i], st.vectors[i]) == 0.0
  {
    hide Dot, PageChunks, CosineOf, Matches, SourceFilter;
    var v, d := st.vectors[i], Documents(st)[i];
    if Dot(v, v) == 0.0 {
      forall e <- docs ensures Score(v, e, sqrt) == 0.0 {
        if |v| <= |e.embedding| { ZeroVectorScoresZero(v, e.embedding, sqrt); }
      }
    } else {
      SelectMembers(docs, SourceFilter(st.page.sourceId), true);
      FilterIsSource(d, st.page.sourceId);
      assert d in Documents(st);
      CosineRange(v, v, sqrt);
      assert Score(v, d, sqrt) == 1.0;
    }
  }

  /** The chunks' texts, and so what the embedder is given, come from the page's text alone. */
  lemma SameTextSameChunkTexts(p: Page, q: Page)
    requires p.text == q.text
    ensures |PageChunks(p)| == |PageChunks(q)| && ChunkTexts(PageChunks(p)) == ChunkTexts(PageChunks(q))
  {
    hide Splitter.Split;
    assert forall i | 0 <= i < |PageChunks(p)| :: PageChunks(p)[i].text == PageChunks(q)[i].text;
  }

  predicate NoneZero(vs: seq<Vector>) {
    forall v <- vs :: Dot(v, v) != 0.0
  }

  lemma NoveltyIsZeros(docs: seq<Document>, st: StoredPage, sqrt: real -> real)
    requires Of(docs, st.page.sourceId) == Documents(st) && IsSquareRoot(sqrt)
    ensures var flags := Novelty(docs, st.page.sourceId, st.vectors, sqrt);
            |flags| == |st.vectors| && (NoneZero(st.vectors) <==> forall i | 0 <= i < |flags| :: !flags[i])
  {
    hide Dot, PageChunks, IsNew, Of;
    var flags := Novelty(docs, st.page.sourceId, st.vectors, sqrt);
    forall i | 0 <= i < |flags| ensures flags[i] <==> Dot(st.vectors[i], st.vectors[i]) == 0.0 {
      StoredVectorIsNewIff(docs, st, i, sqrt);
    }
    assert forall i | 0 <= i < |flags| :: st.vectors[i] in st.vectors;
  }

  lemma ShareIsZero(n: nat, m: nat)
    requires m > 0
    ensures n as real / m as real == 0.0 <==> n == 0
  {
    assert n as real == (n as real / m as real) * m as real;
  }

  /**
   A page met again with its text unchanged, though its title or the time it was fetched may
   differ, and with the embeddings it was last stored with, has change score 0 exactly when none
   of them is the zero vector, whatever else has been stored since.
   */
  lemma UnchangedPageScoresZeroIff(docs: seq<Document>, log: seq<StoredPage>, st: StoredPage, p: Page, sqrt: real -> real)
    requires Named(docs) && IsSquareRoot(sqrt)
    requires p.text == st.page.text && p.sourceId == st.page.sourceId && LastFor(log, p.sourceId) == Some(st)
    ensures |PageChunks(p)| == |st.vectors|
    ensures DiffOf(StoreAll(docs, log), PageChunks(p), st.vectors, p.competitor, sqrt).changeScore == 0.0 <==> NoneZero(st.vectors)
  {
    SameTextSameChunkTexts(p, st.page);
    LastPageWins(docs, log, p.sourceId);
    hide PageChunks, StoreAll, IsNew, Of, LastFor, Pick, NoneZero, Novelty;
    var after, chunks := StoreAll(docs, log), PageChunks(p);
    var flags := Novelty(after, p.sourceId, st.vectors, sqrt);
    NoveltyIsZeros(after, st, sqrt);
    NonePickedIff(chunks, flags);
    if chunks != [] {
      ChunkSource(p);
      assert SourceIdOf(chunks) == p.sourceId;
      ShareIsZero(|Pick(chunks, flags, true)|, |chunks|);
    }
  }

  lemma ChunkSource(p: Page)
    ensures forall c <- PageChunks(p) :: c.sourceId == p.sourceId
  {
    hide Splitter.Split;
  }

  // ---- the loop over pages ----

  /** One embedding of the store's dimension for each text, or a failure. */
  ghost predicate Embeds(embed: seq<Text> -> Option<seq<Vector>>, dimension: nat) {
    forall ts :: embed(ts).Some? ==> |embed(ts).value| == |ts| && forall v <- embed(ts).value :: |v| == dimension
  }

  /** The pages a run stores: short ones are passed over, a failing embedder ends it. */
  function IngestLog(pages: seq<Page>, embed: seq<Text> -> Option<seq<Vector>>, dimension: nat): seq<StoredPage>
    requires Embeds(embed, dimension)
  {
    if pages == [] then []
    else if |pages[0].text| < MIN_TEXT then IngestLog(pages[1..], embed, dimension)
    else
      match embed(ChunkTexts(PageChunks(pages[0])))
      case None => []
      case Some(vs) => [Stored(pages[0], vs)] + IngestLog(pages[1..], embed, dimension)
  }

  /** Page n is of the source, long enough, and no page up to it fails to be embedded. */
  ghost predicate IngestedAt(pages: seq<Page>, embed: seq<Text> -> Option<seq<Vector>>, s: Text, n: nat) {
    && n < |pages| && pages[n].sourceId == s && |pages[n].text| >= 50
    && forall m | 0 <= m <= n :: !Fails(pages[m], embed)
  }

  ghost predicate StoredFrom(st: StoredPage, p: Page, embed: seq<Text> -> Option<seq<Vector>>) {
    st.page == p && embed(ChunkTexts(PageChunks(p))) == Some(st.vectors)
  }

  lemma LastForBehind(st: StoredPage, log: seq<StoredPage>, s: Text)
    ensures LastFor([st] + log, s) ==
            if LastFor(log, s).Some? then LastFor(log, s) else if st.page.sourceId == s then Some(st) else None
  {
    LastForConcat([st], log, s);
    assert Init([st]) == [];
  }

  lemma IngestedLater(pages: seq<Page>, embed: seq<Text> -> Option<seq<Vector>>, s: Text, n: nat)
    requires pages != []
    ensures IngestedAt(pages, embed, s, n + 1) <==> !Fails(pages[0], embed) && IngestedAt(pages[1..], embed, s, n)
  {
    hide Fails;
    if IngestedAt(pages[1..], embed, s, n) && !Fails(pages[0], embed) {
      forall m | 0 <= m <= n + 1 ensures !Fails(pages[m], embed) {
        if m > 0 { assert pages[m] == pages[1..][m - 1]; }
      }
    }
    if IngestedAt(pages, embed, s, n + 1) {
      forall m | 0 <= m <= n ensures !Fails(pages[1..][m], embed) { assert pages[1..][m] == pages[m + 1]; }
    }
  }

  /** r is what is stored of page n, the source's last ingested page; None where there is none. */
  ghost predicate LeftBy(r: Option<StoredPage>, pages: seq<Page>, embed: seq<Text> -> Option<seq<Vector>>, s: Text, n: nat) {
    if r.None? then forall k: nat :: !IngestedAt(pages, embed, s, k)
    else
      && n < |pages| && IngestedAt(pages, embed, s, n) && StoredFrom(r.value, pages[n], embed)
      && forall k: nat :: IngestedAt(pages, embed, s, k) ==> k <= n
  }

  /** One page in front of the others. */
  lemma LeftByMore(r: Option<StoredPage>, pages: seq<Page>, embed: seq<Text> -> Option<seq<Vector>>, s: Text, n: nat)
    requires pages != [] && !Fails(pages[0], embed) && LeftBy(r, pages[1..], embed, s, n)
    ensures r.Some? ==> LeftBy(r, pages, embed, s, n + 1)
    ensures r.None? && !IngestedAt(pages, embed, s, 0) ==> LeftBy(None, pages, embed, s, 0)
    ensures forall st | r.None? && IngestedAt(pages, embed, s, 0) && StoredFrom(st, pages[0], embed) ::
              LeftBy(Some(st), pages, embed, s, 0)
  {
    hide Fails, StoredFrom, IngestedAt;
    forall k: nat ensures k > 0 ==> (IngestedAt(pages, embed, s, k) <==> IngestedAt(pages[1..], embed, s, k - 1)) {
      if k > 0 { IngestedLater(pages, embed, s, k - 1); }
    }
    if r.Some? { assert pages[n + 1] == pages[1..][n]; }
  }

  /** The log of a run that gets past its first page. */
  lemma LogBegins(pages: seq<Page>, embed: seq<Text> -> Option<seq<Vector>>, dimension: nat, s: Text) returns (st: StoredPage)
    requires Embeds(embed, dimension) && pages != [] && !Fails(pages[0], embed)
    ensures var later := LastFor(IngestLog(pages[1..], embed, dimension), s);
            LastFor(IngestLog(pages, embed, dimension), s) ==
            if later.Some? then later else if IngestedAt(pages, embed, s, 0) then Some(st) else None
    ensures IngestedAt(pages, embed, s, 0) ==> StoredFrom(st, pages[0], embed)
  {
    NextPage(pages, 0, embed, dimension);
    assert pages[0..] == pages;
    hide PageChunks, LastFor;
    if |pages[0].text| >= MIN_TEXT {
      st := Stored(pages[0], embed(ChunkTexts(PageChunks(pages[0]))).value);
      LastForBehind(st, IngestLog(pages[1..], embed, dimension), s);
    } else {
      st := *;
    }
  }

  lemma NothingIngested(pages: seq<Page>, embed: seq<Text> -> Option<seq<Vector>>, dimension: nat, s: Text)
    requires Embeds(embed, dimension) && (pages == [] || Fails(pages[0], embed))
    ensures LeftBy(LastFor(IngestLog(pages, embed, dimension), s), pages, embed, s, 0)
  {
    hide PageChunks;
    assert IngestLog(pages, embed, dimension) == [];
  }

  /** What a run leaves for a source is its last page there that was long enough and was reached, if there is one. */
  lemma {:induction false} LastIngested(pages: seq<Page>, embed: seq<Text> -> Option<seq<Vector>>, dimension: nat, s: Text)
    returns (n: nat)
    requires Embeds(embed, dimension)
    ensures LeftBy(LastFor(IngestLog(pages, embed, dimension), s), pages, embed, s, n)
  {
    hide Fails, LeftBy, LastFor, IngestLog, IngestedAt, StoredFrom, Embeds;
    if pages == [] || Fails(pages[0], embed) {
      NothingIngested(pages, embed, dimension, s);
      n := 0;
    } else {
      var rest := LastFor(IngestLog(pages[1..], embed, dimension), s);
      var later := LastIngested(pages[1..], embed, dimension, s);
      var st := LogBegins(pages, embed, dimension, s);
      LeftByMore(rest, pages, embed, s, later);
      n := if rest.Some? then later + 1 else 0;
    }
  }

  /** The diff of each stored page against what was stored before it. */
  ghost function DiffLog(docs: seq<Document>, log: seq<StoredPage>, sqrt: real -> real): seq<DiffResult> {
    if log == [] then []
    else
      var st := Last(log);
      DiffLog(docs, Init(log), sqrt)
      + [DiffOf(StoreAll(docs, Init(log)), PageChunks(st.page), st.vectors, st.page.competitor, sqrt)]
  }

  lemma {:induction false} DiffLogAt(docs: seq<Document>, log: seq<StoredPage>, sqrt: real -> real, j: nat)
    requires j < |log|
    ensures |DiffLog(docs, log, sqrt)| == |log|
    ensures DiffLog(docs, log, sqrt)[j] ==
            DiffOf(StoreAll(docs, log[..j]), PageChunks(log[j].page), log[j].vectors, log[j].page.competitor, sqrt)
  {
    hide DiffOf, StoreAll, PageChunks;
    var before := Init(log);
    if j == |before| {
      if before == [] {
      } else {
        DiffLogAt(docs, before, sqrt, 0);
      }
    } else {
      DiffLogAt(docs, before, sqrt, j);
      assert before[..j] == log[..j];
    }
  }

  lemma {:induction false} LogIsEmbedded(pages: seq<Page>, embed: seq<Text> -> Option<seq<Vector>>, dimension: nat)
    requires Embeds(embed, dimension)
    ensures forall st <- IngestLog(pages, embed, dimension) :: StoredFrom(st, st.page, embed)
  {
    if pages == [] {
    } else {
      LogIsEmbedded(pages[1..], embed, dimension);
      NextPage(pages, 0, embed, dimension);
      assert pages[0..] == pages;
    }
  }

  /**
   The diffs of a run, after any earlier ones: a page whose source was last stored from the same
   text by the same embedder scores 0 exactly when none of its embeddings is zero.
   */
  lemma ReingestedPageScoresZeroIff(
    docs: seq<Document>, earlier: seq<StoredPage>, pages: seq<Page>, embed: seq<Text> -> Option<seq<Vector>>,
    dimension: nat, j: nat, sqrt: real -> real)
    requires Named(docs) && Embeds(embed, dimension) && IsSquareRoot(sqrt) && j < |IngestLog(pages, embed, dimension)|
    requires var log := IngestLog(pages, embed, dimension);
             var last := LastFor(earlier + log[..j], log[j].page.sourceId);
             last.Some? && last.value.page.text == log[j].page.text && StoredFrom(last.value, last.value.page, embed)
    ensures var log := IngestLog(pages, embed, dimension);
            && |DiffLog(StoreAll(docs, earlier), log, sqrt)| == |log|
            && (DiffLog(StoreAll(docs, earlier), log, sqrt)[j].changeScore == 0.0 <==> NoneZero(log[j].vectors))
  {
    var log := IngestLog(pages, embed, dimension);
    var last, p := LastFor(earlier + log[..j], log[j].page.sourceId).value, log[j].page;
    LogIsEmbedded(pages, embed, dimension);
    assert StoredFrom(log[j], p, embed);
    SameTextSameChunkTexts(p, last.page);
    hide IngestLog, PageChunks, StoreAll, DiffOf, NoneZero;
    LastForSource(earlier + log[..j], p.sourceId);
    RunsCompose(docs, earlier, log[..j]);
    DiffLogAt(StoreAll(docs, earlier), log, sqrt, j);
    UnchangedPageScoresZeroIff(docs, earlier + log[..j], last, p, sqrt);
  }

  lemma {:induction false} LastForSource(log: seq<StoredPage>, s: Text)
    ensures LastFor(log, s).Some? ==> LastFor(log, s).value.page.sourceId == s
  {
    if log == [] {
    } else {
      LastForSource(Init(log), s);
    }
  }

  // ---- any number of runs ----

  /** Runs may differ in their pages and in their embedder, and each may fail. */
  datatype Run = Run(pages: seq<Page>, embed: seq<Text> -> Option<seq<Vector>>)

  ghost predicate Fit(runs: seq<Run>, dimension: nat) {
    forall r <- runs :: Embeds(r.embed, dimension)
  }

  function AfterRuns(docs: seq<Document>, runs: seq<Run>, dimension: nat): seq<Document>
    requires Fit(runs, dimension)
  {
    if runs == [] then docs
    else
      assert Last(runs) in runs;
      StoreAll(AfterRuns(docs, Init(runs), dimension), IngestLog(Last(runs).pages, Last(runs).embed, dimension))
  }

  /** Page n of run m is the last page of the source that any of the runs ingested. */
  ghost predicate LastOfRuns(runs: seq<Run>, s: Text, m: nat, n: nat) {
    && m < |runs| && IngestedAt(runs[m].pages, runs[m].embed, s, n)
    && (forall k: nat :: IngestedAt(runs[m].pages, runs[m].embed, s, k) ==> k <= n)
    && (forall i: nat | m < i < |runs| :: NeverIngested(runs[i], s))
  }

  ghost predicate NeverIngested(r: Run, s: Text) {
    forall k: nat :: !IngestedAt(r.pages, r.embed, s, k)
  }

  /** The documents a page leaves, given its embedder. */
  function DocumentsFrom(p: Page, embed: seq<Text> -> Option<seq<Vector>>): Option<seq<Document>> {
    var chunks := PageChunks(p);
    match embed(ChunkTexts(chunks))
    case None => None
    case Some(vs) => if |vs| == |chunks| then Some(DocumentsOf(chunks, vs)) else None
  }

  /** The source holds what its last ingested page left, or what it held at the start if there is none. */
  ghost predicate RunsLeave(final: seq<Document>, initial: seq<Document>, runs: seq<Run>, s: Text, m: nat, n: nat) {
    || (LastOfRuns(runs, s, m, n) && n < |runs[m].pages| && Some(final) == DocumentsFrom(runs[m].pages[n], runs[m].embed))
    || ((forall r <- runs :: NeverIngested(r, s)) && final == initial)
  }

  lemma RunIngests(final: seq<Document>, initial: seq<Document>, runs: seq<Run>, s: Text, st: StoredPage, n: nat)
    requires runs != [] && LeftBy(Some(st), Last(runs).pages, Last(runs).embed, s, n) && final == Documents(st)
    ensures RunsLeave(final, initial, runs, s, |runs| - 1, n)
  {
    hide PageChunks, IngestedAt;
    assert Some(final) == DocumentsFrom(Last(runs).pages[n], Last(runs).embed);
  }

  lemma RunIngestsNone(final: seq<Document>, initial: seq<Document>, runs: seq<Run>, s: Text, m: nat, n: nat)
    requires runs != [] && NeverIngested(Last(runs), s) && RunsLeave(final, initial, Init(runs), s, m, n)
    ensures RunsLeave(final, initial, runs, s, m, n)
  {
    hide DocumentsFrom, NeverIngested, IngestedAt;
    assert forall i | 0 <= i < |Init(runs)| :: Init(runs)[i] == runs[i];
    assert forall r <- runs :: r in Init(runs) || r == Last(runs);
  }

  /** After any sequence of runs, failed ones included, a source holds exactly the documents of its last ingested page. */
  lemma {:induction false} LastPageOfRuns(docs: seq<Document>, runs: seq<Run>, dimension: nat, s: Text) returns (m: nat, n: nat)
    requires Named(docs) && Fit(runs, dimension)
    ensures Named(AfterRuns(docs, runs, dimension))
    ensures RunsLeave(Of(AfterRuns(docs, runs, dimension), s), Of(docs, s), runs, s, m, n)
  {
    hide Of, Named, IngestedAt, Embeds, IngestLog, LastFor, LastOfRuns;
    if runs == [] {
      m, n := 0, 0;
    } else {
      var before, r := Init(runs), Last(runs);
      assert Embeds(r.embed, dimension) && forall q <- before :: q in runs;
      var log := IngestLog(r.pages, r.embed, dimension);
      m, n := LastPageOfRuns(docs, before, dimension, s);
      LastPageWins(AfterRuns(docs, before, dimension), log, s);
      var k := LastIngested(r.pages, r.embed, dimension, s);
      hide RunsLeave, LeftBy, StoreAll, PageChunks;
      if LastFor(log, s).Some? {
        RunIngests(Of(AfterRuns(docs, runs, dimension), s), Of(docs, s), runs, s, LastFor(log, s).value, k);
        m, n := |before|, k;
      } else {
        assert NeverIngested(r, s) by { NoneMeansNever(r, LastFor(log, s), s, k); }
        RunIngestsNone(Of(AfterRuns(docs, runs, dimension), s), Of(docs, s), runs, s, m, n);
      }
    }
  }

  lemma NoneMeansNever(r: Run, left: Option<StoredPage>, s: Text, n: nat)
    requires left.None? && LeftBy(left, r.pages, r.embed, s, n)
    ensures NeverIngested(r, s)
  {
  }

  function ChunkCount(log: seq<StoredPage>): nat {
    if log == [] then 0 else ChunkCount(Init(log)) + |Last(log).vectors|
  }

  function TotalChunks(diffs: seq<DiffResult>): nat {
    if diffs == [] then 0 else TotalChunks(Init(diffs)) + Last(diffs).totalChunks
  }

  /** The number of chunks stored is the sum of what the diffs report. */
  lemma {:induction false} TotalsAgree(docs: seq<Document>, log: seq<StoredPage>, sqrt: real -> real)
    ensures TotalChunks(DiffLog(docs, log, sqrt)) == ChunkCount(log)
  {
    hide DiffOf, StoreAll, PageChunks;
    if log == [] {
    } else {
      TotalsAgree(docs, Init(log), sqrt);
      var before, diffs := DiffLog(docs, Init(log), sqrt), DiffLog(docs, log, sqrt);
      assert Init(diffs) == before;
      TotalOf(StoreAll(docs, Init(log)), Last(log), sqrt);
    }
  }

  lemma TotalOf(docs: seq<Document>, st: StoredPage, sqrt: real -> real)
    ensures DiffOf(docs, PageChunks(st.page), st.vectors, st.page.competitor, sqrt).totalChunks == |st.vectors|
  {
  }

  lemma {:induction false} NoneOfSource(docs: seq<Document>, filter: Metadata)
    requires Select(docs, filter, true) == []
    ensures Select(docs, filter, false) == docs
  {
    hide Matches;
    if docs == [] {
    } else {
      NoneOfSource(docs[1..], filter);
      assert docs == [docs[0]] + docs[1..];
    }
  }

  lemma {:induction false} NotStored(log: seq<StoredPage>, s: Text)
    requires forall st <- log :: st.page.sourceId != s
    ensures LastFor(log, s) == None
  {
    if log == [] {
    } else {
      assert Last(log) in log && forall st <- Init(log) :: st in log;
      NotStored(Init(log), s);
    }
  }

  lemma NamedNothing()
    ensures Named([]) && forall s :: Of([], s) == []
  {
  }

  /** Pages of different sources fill an empty store with exactly as many documents as the run counts. */
  lemma {:induction false} StoreHoldsTheTotal(log: seq<StoredPage>)
    requires forall i, j | 0 <= i < j < |log| :: log[i].page.sourceId != log[j].page.sourceId
    ensures Named(StoreAll([], log)) && |StoreAll([], log)| == ChunkCount(log)
  {
    hide PageChunks, Matches, SourceFilter, Select, Named;
    NamedNothing();
    LastPageWins([], log, []);
    if log == [] {
    } else {
      var before, st := Init(log), Last(log);
      StoreHoldsTheTotal(before);
      assert forall e <- before :: e.page.sourceId != st.page.sourceId;
      NotStored(before, st.page.sourceId);
      LastPageWins([], before, st.page.sourceId);
      assert Of([], st.page.sourceId) == [] by { NamedNothing(); }
      NoneOfSource(StoreAll([], before), SourceFilter(st.page.sourceId));
      StorePageReplaces(StoreAll([], before), st);
    }
  }

  lemma {:induction false} PutAllDimension(docs: seq<Document>, more: seq<Document>, n: nat)
    requires Dimension(docs, n) && Dimension(more, n)
    ensures Dimension(PutAll(docs, more), n)
  {
    if more == [] {
    } else {
      PutAllDimension(docs, Init(more), n);
      forall e <- PutAll(docs, more) ensures |e.embedding| == n { PutMembers(PutAll(docs, Init(more)), Last(more), e); }
    }
  }

  lemma StorePageDimension(docs: seq<Document>, st: StoredPage, n: nat)
    requires Dimension(docs, n) && forall v <- st.vectors :: |v| == n
    ensures Dimension(StorePage(docs, st), n)
  {
    hide PageChunks;
    SelectMembers(docs, SourceFilter(st.page.sourceId), false);
    PutAllDimension(Select(docs, SourceFilter(st.page.sourceId), false), Documents(st), n);
  }

  predicate Fails(p: Page, embed: seq<Text> -> Option<seq<Vector>>) {
    |p.text| >= MIN_TEXT && embed(ChunkTexts(PageChunks(p))).None?
  }

  /** Steps 3 and 4 for an embedded page: diff against the store, then replace its source's documents. */
  method DiffAndReplace(page: Page, chunks: seq<Chunk>, embeddings: seq<Vector>, store: MemoryVectorStore, ghost dimension: nat)
    returns (diff: DiffResult, stored: nat)
    requires chunks == PageChunks(page) && |embeddings| == |chunks|
    requires Dimension(store.docs, dimension) && forall v <- embeddings :: |v| == dimension
    modifies store
    ensures store.docs == StorePage(old(store.docs), Stored(page, embeddings)) && Dimension(store.docs, dimension)
    ensures diff == DiffOf(old(store.docs), chunks, embeddings, page.competitor, store.sqrt)
    ensures stored == |embeddings|
  {
    hide PageChunks, IsNew, Select, PutAll;
    diff := SemanticDiff(chunks, embeddings, store, page.competitor);
    StorePageDimension(store.docs, Stored(page, embeddings), dimension);
    var deleted := store.DeleteByMetadata(SourceFilter(page.sourceId));
    var docs := DocumentsOf(chunks, embeddings);
    store.Upsert(docs);
    stored := |docs|;
  }

  method IngestAndDiff(pages: seq<Page>, embed: seq<Text> -> Option<seq<Vector>>, store: MemoryVectorStore, ghost dimension: nat)
    returns (diffs: seq<DiffResult>, totalChunksStored: nat, failed: bool)
    requires Embeds(embed, dimension) && Dimension(store.docs, dimension)
    modifies store
    ensures var log := IngestLog(pages, embed, dimension);
            && store.docs == StoreAll(old(store.docs), log)
            && diffs == DiffLog(old(store.docs), log, store.sqrt)
            && totalChunksStored == ChunkCount(log)
    ensures Dimension(store.docs, dimension)
    ensures failed <==> exists n :: 0 <= n < |pages| && Fails(pages[n], embed)
  {
    diffs, totalChunksStored, failed := [], 0, false;
    ghost var log: seq<StoredPage> := [];
    hide PageChunks, DiffOf, StorePage, Dimension, Fails;
    assert pages[0..] == pages;
    for n := 0 to |pages|
      invariant log + IngestLog(pages[n..], embed, dimension) == IngestLog(pages, embed, dimension)
      invariant store.docs == StoreAll(old(store.docs), log) && Dimension(store.docs, dimension)
      invariant diffs == DiffLog(old(store.docs), log, store.sqrt)
      invariant totalChunksStored == ChunkCount(log)
      invariant forall k | 0 <= k < n :: !Fails(pages[k], embed)
    {
      var page := pages[n];
      NextPage(pages, n, embed, dimension);
      if |page.text| < MIN_TEXT {
        continue;
      }
      var chunks := ChunkText(page.text, page.sourceId, PageMetadata(page));
      PageChunksAre(page);
      var embedded := embed(ChunkTexts(chunks));
      if embedded.None? {
        failed := true;
        Nothing(log);
        return;
      }
      var embeddings := embedded.value;
      var diff, stored := DiffAndReplace(page, chunks, embeddings, store, dimension);
      ghost var st: StoredPage := Stored(page, embeddings);
      Assoc(log, [st], IngestLog(pages[n + 1..], embed, dimension));
      assert Init(log + [st]) == log;
      log := log + [st];
      diffs := diffs + [diff];
      totalChunksStored := totalChunksStored + stored;
    }
    Nothing(log);
  }

  lemma PageChunksAre(p: Page)
    ensures PageChunks(p) == Chunks(p.text, p.sourceId, PageMetadata(p), 1000, 200)
  {
  }

  /** What the log of the remaining pages begins with. */
  lemma NextPage(pages: seq<Page>, n: nat, embed: seq<Text> -> Option<seq<Vector>>, dimension: nat)
    requires n < |pages| && Embeds(embed, dimension)
    ensures var embedded := embed(ChunkTexts(PageChunks(pages[n])));
            && Fails(pages[n], embed) == (|pages[n].text| >= MIN_TEXT && embedded.None?)
            && IngestLog(pages[n..], embed, dimension) ==
               if |pages[n].text| < MIN_TEXT then IngestLog(pages[n + 1..], embed, dimension)
               else match embedded
                    case None => []
                    case Some(vs) => [Stored(pages[n], vs)] + IngestLog(pages[n + 1..], embed, dimension)
  {
    hide PageChunks;
    assert pages[n..][0] == pages[n] && pages[n..][1..] == pages[n + 1..];
  }
}
