/** The ingest pipeline: chunk, embed, compare with what is stored, replace it. */
module Ingest {
  import opened Utf16
  import opened Wrappers
  import opened Ids
  import opened Chunker
  import opened Vectors
  import opened VectorStore

  datatype Page = Page(text: Text, sourceId: Text, competitor: Text, kind: Text, url: Text, title: Text, fetchedAt: Text)

  const MIN_TEXT: nat := 50
  const THRESHOLD: real := 0.85
  const UNKNOWN: Text := [117, 110, 107, 110, 111, 119, 110]

  function PageMetadata(p: Page): Metadata {
    map[SourceKey := p.sourceId, CompetitorKey := p.competitor, TypeKey := p.kind, UrlKey := p.url,
        TitleKey := p.title, FetchedAtKey := p.fetchedAt]
  }

  function PageChunks(p: Page): seq<Chunk> {
    Chunks(p.text, p.sourceId, PageMetadata(p), 1000, 200)
  }

  function SourceFilter(s: Text): Metadata {
    map[SourceKey := s]
  }

  predicate From(d: Document, s: Text) {
    SourceKey in d.metadata && d.metadata[SourceKey] == s
  }

  lemma FilterIsSource(d: Document, s: Text)
    ensures Matches(d, SourceFilter(s)) <==> From(d, s)
  {
    assert SourceKey in SourceFilter(s);
  }

  /** The stored documents of a source, in order. */
  function Of(docs: seq<Document>, s: Text): seq<Document> {
    Select(docs, SourceFilter(s), true)
  }

  function DocumentsOf(chunks: seq<Chunk>, vs: seq<Vector>): seq<Document>
    requires |chunks| == |vs|
  {
    seq(|chunks|, i requires 0 <= i < |chunks| => Document(chunks[i].id, chunks[i].text, vs[i], chunks[i].metadata))
  }

  // ---- one page ----

  datatype Stored = Stored(page: Page, vectors: seq<Vector>)

  const EMPTY_PAGE := Page([], [], [], [], [], [], [])

  /** A page that was stored, with the embeddings its chunks were given. */
  type StoredPage = st: Stored | |st.vectors| == |PageChunks(st.page)| witness Stored(EMPTY_PAGE, [[]])

  function Documents(st: StoredPage): seq<Document> {
    DocumentsOf(PageChunks(st.page), st.vectors)
  }

  /** What is stored of chunk i: its text and embedding, under its id, with the page's fields. */
  lemma StoredDocumentIs(st: StoredPage, i: nat)
    requires i < |PageChunks(st.page)|
    ensures |Documents(st)| == |PageChunks(st.page)|
    ensures var p, c, d := st.page, PageChunks(st.page)[i], Documents(st)[i];
            && d.id == c.id == ChunkId(p.sourceId, i) && d.content == c.text && d.embedding == st.vectors[i] && d.metadata == c.metadata
            && {SourceKey, CompetitorKey, TypeKey, UrlKey, TitleKey, FetchedAtKey} <= d.metadata.Keys
            && d.metadata[SourceKey] == p.sourceId && d.metadata[CompetitorKey] == p.competitor && d.metadata[TypeKey] == p.kind
            && d.metadata[UrlKey] == p.url && d.metadata[TitleKey] == p.title && d.metadata[FetchedAtKey] == p.fetchedAt
  {
    hide ChunkId, Overlapped, Splitter.Split, Position, Decimal;
  }

  /** Pages are cut at 1000 characters, and a chunk starts with up to 200 of the segment before. */
  lemma PageChunkIs(p: Page, i: nat)
    requires i < |Splitter.Split(p.text, SEPARATORS, 1000)|
    ensures var segments := Splitter.Split(p.text, SEPARATORS, 1000);
            |PageChunks(p)| == |segments| && IsChunk(PageChunks(p)[i], segments, i, p.sourceId, 200)
  {
    ChunksAreSegments(p.text, p.sourceId, PageMetadata(p), 1000, 200, i);
  }

  /** A page that fits into one chunk is stored with its text as it is. */
  lemma ShortPageIsStoredWhole(st: StoredPage)
    requires |st.page.text| <= 1000
    ensures |Documents(st)| == 1 && Documents(st)[0].content == st.page.text
  {
  }

  function StorePage(docs: seq<Document>, st: StoredPage): seq<Document> {
    PutAll(Select(docs, SourceFilter(st.page.sourceId), false), Documents(st))
  }

  function StoreAll(docs: seq<Document>, log: seq<StoredPage>): seq<Document> {
    if log == [] then docs else StorePage(StoreAll(docs, Init(log)), Last(log))
  }

  /** Every stored document carries the id of a chunk of its own source. */
  ghost predicate Named(docs: seq<Document>) {
    forall d <- docs :: NamedFor(d)
  }

  ghost predicate NamedFor(d: Document) {
    SourceKey in d.metadata && exists i: nat :: d.id == ChunkId(d.metadata[SourceKey], i)
  }

  lemma {:induction false} PutFresh(docs: seq<Document>, d: Document)
    requires forall e <- docs :: e.id != d.id
    ensures Put(docs, d) == docs + [d]
  {
    if docs == [] {
    } else {
      PutFresh(docs[1..], d);
      assert docs == [docs[0]] + docs[1..];
      Assoc([docs[0]], docs[1..], [d]);
    }
  }

  lemma {:induction false} PutAllFresh(docs: seq<Document>, more: seq<Document>)
    requires forall e <- docs, d <- more :: e.id != d.id
    requires forall i, j | 0 <= i < j < |more| :: more[i].id != more[j].id
    ensures PutAll(docs, more) == docs + more
  {
    if more == [] {
      Nothing(docs);
    } else {
      PutAllFresh(docs, Init(more));
      PutFresh(docs + Init(more), Last(more));
      assert more == Init(more) + [Last(more)];
      Assoc(docs, Init(more), [Last(more)]);
    }
  }

  lemma DocumentsNamed(st: StoredPage)
    ensures forall i | 0 <= i < |Documents(st)| ::
              From(Documents(st)[i], st.page.sourceId) && Documents(st)[i].id == ChunkId(st.page.sourceId, i)
  {
    hide ChunkId, Overlapped, Splitter.Split;
  }

  /** Storing a page takes out exactly its source's documents and puts the page's own at the end. */
  lemma StorePageReplaces(docs: seq<Document>, st: StoredPage)
    requires Named(docs)
    ensures StorePage(docs, st) == Select(docs, SourceFilter(st.page.sourceId), false) + Documents(st)
  {
    hide Matches, SourceFilter;
    var s, more := st.page.sourceId, Documents(st);
    var kept := Select(docs, SourceFilter(s), false);
    DocumentsNamed(st);
    SelectMembers(docs, SourceFilter(s), false);
    forall e <- kept, d <- more ensures e.id != d.id {
      FilterIsSource(e, s);
      assert NamedFor(e);
      if e.id == d.id {
        var i: nat :| e.id == ChunkId(e.metadata[SourceKey], i);
        var j :| 0 <= j < |more| && more[j] == d;
        ChunkIdInjective(e.metadata[SourceKey], i, s, j);
      }
    }
    forall i, j | 0 <= i < j < |more| ensures more[i].id != more[j].id {
      if more[i].id == more[j].id { ChunkIdInjective(s, i, s, j); }
    }
    PutAllFresh(kept, more);
  }

  lemma StorePageNamed(docs: seq<Document>, st: StoredPage)
    requires Named(docs)
    ensures Named(StorePage(docs, st))
  {
    hide Matches, SourceFilter;
    StorePageReplaces(docs, st);
    DocumentsNamed(st);
    SelectMembers(docs, SourceFilter(st.page.sourceId), false);
    forall d <- Documents(st) ensures NamedFor(d) {
      var j :| 0 <= j < |Documents(st)| && Documents(st)[j] == d;
      assert d.id == ChunkId(d.metadata[SourceKey], j);
    }
  }

  lemma {:induction false} SelectAll(docs: seq<Document>, filter: Metadata, matching: bool)
    requires forall d <- docs :: Matches(d, filter) == matching
    ensures Select(docs, filter, matching) == docs && Select(docs, filter, !matching) == []
  {
    hide Matches;
    if docs == [] {
    } else {
      SelectAll(docs[1..], filter, matching);
      assert docs == [docs[0]] + docs[1..];
    }
  }

  /** Taking out one source leaves the others as they were. */
  lemma {:induction false} SelectOther(docs: seq<Document>, s: Text, t: Text)
    requires s != t
    ensures Of(Select(docs, SourceFilter(s), false), t) == Of(docs, t)
  {
    hide Matches, SourceFilter;
    if docs == [] {
    } else {
      SelectOther(docs[1..], s, t);
      FilterIsSource(docs[0], s);
      FilterIsSource(docs[0], t);
      var kept := Select(docs[1..], SourceFilter(s), false);
      if !From(docs[0], s) {
        assert ([docs[0]] + kept)[1..] == kept;
      } else {
        Nothing(kept);
      }
    }
  }

  /** After a page is stored, its source has exactly the page's documents and every other source what it had. */
  lemma StorePageContents(docs: seq<Document>, st: StoredPage, t: Text)
    requires Named(docs)
    ensures Of(StorePage(docs, st), t) == if t == st.page.sourceId then Documents(st) else Of(docs, t)
  {
    hide Matches, SourceFilter;
    var s, more := st.page.sourceId, Documents(st);
    var kept := Select(docs, SourceFilter(s), false);
    StorePageReplaces(docs, st);
    DocumentsNamed(st);
    SelectConcat(kept, more, SourceFilter(t), true);
    forall d <- more ensures Matches(d, SourceFilter(t)) == (s == t) { FilterIsSource(d, t); }
    SelectAll(more, SourceFilter(t), s == t);
    if s == t {
      SelectMembers(docs, SourceFilter(s), false);
      SelectAll(kept, SourceFilter(s), false);
      Nothing(more);
    } else {
      SelectOther(docs, s, t);
      Nothing(Of(docs, t));
    }
  }

  // ---- any number of pages and runs ----

  function LastFor(log: seq<StoredPage>, s: Text): Option<StoredPage> {
    if log == [] then None
    else if Last(log).page.sourceId == s then Some(Last(log))
    else LastFor(Init(log), s)
  }

  /** Of two logs in a row the later one decides, where it has the source at all. */
  lemma {:induction false} LastForConcat(a: seq<StoredPage>, b: seq<StoredPage>, s: Text)
    ensures LastFor(a + b, s) == if LastFor(b, s).Some? then LastFor(b, s) else LastFor(a, s)
  {
    if b == [] {
      Nothing(a);
    } else {
      LastForConcat(a, Init(b), s);
      assert Init(a + b) == a + Init(b) && Last(a + b) == Last(b);
    }
  }

  /** The store holds, for each source, exactly the chunks of the last page stored for it. */
  lemma {:induction false} LastPageWins(docs: seq<Document>, log: seq<StoredPage>, s: Text)
    requires Named(docs)
    ensures Named(StoreAll(docs, log))
    ensures Of(StoreAll(docs, log), s) ==
            match LastFor(log, s) { case None => Of(docs, s) case Some(st) => Documents(st) }
  {
    hide Of, Named;
    if log == [] {
    } else {
      LastPageWins(docs, Init(log), s);
      StorePageNamed(StoreAll(docs, Init(log)), Last(log));
      StorePageContents(StoreAll(docs, Init(log)), Last(log), s);
    }
  }

  lemma {:induction false} RunsCompose(docs: seq<Document>, a: seq<StoredPage>, b: seq<StoredPage>)
    ensures StoreAll(StoreAll(docs, a), b) == StoreAll(docs, a + b)
  {
    if b == [] {
      Nothing(a);
    } else {
      assert Init(a + b) == a + Init(b) && Last(a + b) == Last(b);
      RunsCompose(docs, a, Init(b));
    }
  }
}
