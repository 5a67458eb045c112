/** Chunks: the splitter's segments, each with the end of its predecessor in front. */
module Chunker {
  import opened Utf16
  import opened Ids
  import opened Splitter

  /** The metadata keys the pipeline uses. */
  datatype MetaKey = SourceKey | CompetitorKey | TypeKey | UrlKey | TitleKey | FetchedAtKey | ChunkIndexKey | PositionKey

  type Metadata = map<MetaKey, Text>

  datatype Chunk = Chunk(id: Text, text: Text, index: nat, sourceId: Text, metadata: Metadata)

  /** Blank line, line end, sentence end, space. */
  const SEPARATORS: seq<Separator> := [[10, 10], [10], [46, 32], [32]]

  lemma SeparatorsSpell()
    ensures |SEPARATORS| == 4 && Spells(SEPARATORS[0], "\n\n") && Spells(SEPARATORS[1], "\n")
    ensures Spells(SEPARATORS[2], ". ") && Spells(SEPARATORS[3], " ")
  {
  }

  /** text.slice(-n) for n > 0. */
  function Ending(text: Text, n: nat): Text {
    if |text| <= n then text else text[|text| - n..]
  }

  function Overlapped(segments: seq<Text>, i: nat, overlap: int): Text
    requires i < |segments|
  {
    (if i > 0 && overlap > 0 then Ending(segments[i - 1], overlap) else []) + segments[i]
  }

  function Position(segments: seq<Text>, i: nat): nat
    requires i <= |segments|
  {
    if i == 0 then 0 else Position(segments, i - 1) + |segments[i - 1]|
  }

  function Joined(segments: seq<Text>): Text {
    if segments == [] then [] else Joined(Init(segments)) + Last(segments)
  }

  /** The position is the length of everything in the segments before. */
  lemma {:induction false} PositionIsLength(segments: seq<Text>, i: nat)
    requires i <= |segments|
    ensures Position(segments, i) == |Joined(segments[..i])|
  {
    if i == 0 {
    } else {
      PositionIsLength(segments, i - 1);
      TakeOneMore(segments, i - 1);
    }
  }

  function ChunkAt(segments: seq<Text>, i: nat, sourceId: Text, metadata: Metadata, overlap: int): Chunk
    requires i < |segments|
  {
    Chunk(ChunkId(sourceId, i), Overlapped(segments, i, overlap), i, sourceId,
          metadata[ChunkIndexKey := Decimal(i)][PositionKey := Decimal(Position(segments, i))])
  }

  function ChunksUpTo(segments: seq<Text>, n: nat, sourceId: Text, metadata: Metadata, overlap: int): (cs: seq<Chunk>)
    requires n <= |segments|
    ensures |cs| == n && forall i | 0 <= i < n :: cs[i] == ChunkAt(segments, i, sourceId, metadata, overlap)
  {
    if n == 0 then []
    else ChunksUpTo(segments, n - 1, sourceId, metadata, overlap) + [ChunkAt(segments, n - 1, sourceId, metadata, overlap)]
  }

  function Chunks(text: Text, sourceId: Text, metadata: Metadata, maxSize: nat, overlap: int): seq<Chunk>
    requires maxSize >= 1
  {
    if |text| <= maxSize then [Chunk(ChunkId(sourceId, 0), text, 0, sourceId, metadata)]
    else
      var segments := Split(text, SEPARATORS, maxSize);
      ChunksUpTo(segments, |segments|, sourceId, metadata, overlap)
  }

  method ChunkText(text: Text, sourceId: Text, metadata: Metadata, maxSize: nat := 1000, overlap: int := 200)
    returns (chunks: seq<Chunk>)
    requires maxSize >= 1
    ensures chunks == Chunks(text, sourceId, metadata, maxSize, overlap)
  {
    if |text| <= maxSize {
      return [Chunk(ChunkId(sourceId, 0), text, 0, sourceId, metadata)];
    }
    hide Split, Decimal, ChunkId, ChunkAt, Ending;
    var segments := RecursiveSplit(text, SEPARATORS, maxSize);
    chunks := [];
    var position := 0;
    for i := 0 to |segments|
      invariant position == Position(segments, i)
      invariant chunks == ChunksUpTo(segments, i, sourceId, metadata, overlap)
    {
      var chunk := segments[i];
      if i > 0 && overlap > 0 {
        var overlapText := Ending(segments[i - 1], overlap);
        chunk := overlapText + chunk;
      }
      ChunkAtIs(segments, i, sourceId, metadata, overlap, chunk);
      chunks := chunks + [Chunk(ChunkId(sourceId, i), chunk, i, sourceId,
                                metadata[ChunkIndexKey := Decimal(i)][PositionKey := Decimal(position)])];
      position := position + |segments[i]|;
    }
  }

  lemma ChunkAtIs(segments: seq<Text>, i: nat, sourceId: Text, metadata: Metadata, overlap: int, text: Text)
    requires i < |segments|
    requires text == if i > 0 && overlap > 0 then Ending(segments[i - 1], overlap) + segments[i] else segments[i]
    ensures Chunk(ChunkId(sourceId, i), text, i, sourceId,
                  metadata[ChunkIndexKey := Decimal(i)][PositionKey := Decimal(Position(segments, i))])
            == ChunkAt(segments, i, sourceId, metadata, overlap)
  {
    Nothing(segments[i]);
  }

  ghost predicate IsSuffix(s: Text, t: Text) {
    |s| <= |t| && t[|t| - |s|..] == s
  }

  lemma PrefixAndSegment(prefix: Text, segment: Text)
    ensures (prefix + segment)[..|prefix + segment| - |segment|] == prefix
  {
  }

  lemma {:induction false} SegmentsFit(l: seq<Piece>, i: nat, maxSize: nat)
    requires PiecesOk(l, SEPARATORS, maxSize) && i < |Segments(l)|
    ensures 0 < |Segments(l)[i]| <= maxSize
  {
    if l[0].Segment? {
      if i > 0 { SegmentsFit(l[1..], i - 1, maxSize); }
    } else {
      SegmentsFit(l[1..], i, maxSize);
    }
  }

  lemma EndingIs(text: Text, n: nat)
    ensures IsSuffix(Ending(text, n), text) && |Ending(text, n)| == if |text| <= n then |text| else n
  {
  }

  /**
   Every chunk is an overlap followed by its segment. The overlap is the end of the previous
   segment, exactly as long as was asked for or as that segment is.
   */
  ghost predicate IsChunk(c: Chunk, segments: seq<Text>, i: nat, sourceId: Text, overlap: int)
    requires i < |segments|
  {
    && c.id == ChunkId(sourceId, i) && c.index == i && c.sourceId == sourceId
    && |segments[i]| <= |c.text|
    && var prefix := c.text[..|c.text| - |segments[i]|];
       && c.text == prefix + segments[i]
       && if i == 0 || overlap <= 0 then prefix == []
          else IsSuffix(prefix, segments[i - 1]) && |prefix| == if |segments[i - 1]| <= overlap then |segments[i - 1]| else overlap
  }

  lemma OverlappedIsChunk(segments: seq<Text>, i: nat, sourceId: Text, metadata: Metadata, overlap: int)
    requires i < |segments|
    ensures IsChunk(ChunkAt(segments, i, sourceId, metadata, overlap), segments, i, sourceId, overlap)
  {
    hide Decimal, ChunkId, Position, Ending, IsSuffix;
    var prefix := if i > 0 && overlap > 0 then Ending(segments[i - 1], overlap) else [];
    if i > 0 && overlap > 0 { EndingIs(segments[i - 1], overlap); }
    PrefixAndSegment(prefix, segments[i]);
  }

  /** There is one chunk for each segment; none is empty unless the text is, and none is longer than maxSize + overlap. */
  lemma ChunksAreSegments(text: Text, sourceId: Text, metadata: Metadata, maxSize: nat, overlap: int, i: nat)
    requires maxSize >= 1 && i < |Split(text, SEPARATORS, maxSize)|
    ensures var segments, chunks := Split(text, SEPARATORS, maxSize), Chunks(text, sourceId, metadata, maxSize, overlap);
            && |chunks| == |segments| && IsChunk(chunks[i], segments, i, sourceId, overlap)
            && (text != [] ==> chunks[i].text != [])
            && |chunks[i].text| <= maxSize + if overlap > 0 then overlap else 0
  {
    hide Decimal, ChunkId, Position, CutsOk, PiecesOk, ChunkAt, IsSuffix;
    var segments := Split(text, SEPARATORS, maxSize);
    if |text| <= maxSize {
      assert segments == [text];
    } else {
      hide Split;
      var l := SplitLayout(text, SEPARATORS, maxSize);
      SegmentsFit(l, i, maxSize);
      OverlappedIsChunk(segments, i, sourceId, metadata, overlap);
    }
  }

  /** A text that fits is its own only chunk, with the metadata as given. */
  lemma ShortTextIsOneChunk(text: Text, sourceId: Text, metadata: Metadata, maxSize: nat, overlap: int)
    requires maxSize >= 1 && |text| <= maxSize
    ensures Chunks(text, sourceId, metadata, maxSize, overlap) == [Chunk(ChunkId(sourceId, 0), text, 0, sourceId, metadata)]
  {
  }

  /** The chunks of a longer text add their index and the length of the segments before them to the metadata. */
  lemma ChunkMetadata(text: Text, sourceId: Text, metadata: Metadata, maxSize: nat, overlap: int, i: nat)
    requires maxSize >= 1 && |text| > maxSize && i < |Split(text, SEPARATORS, maxSize)|
    ensures var segments, m := Split(text, SEPARATORS, maxSize), Chunks(text, sourceId, metadata, maxSize, overlap)[i].metadata;
            && m.Keys == metadata.Keys + {ChunkIndexKey, PositionKey}
            && m[ChunkIndexKey] == Decimal(i) && m[PositionKey] == Decimal(|Joined(segments[..i])|)
            && forall k <- metadata :: k != ChunkIndexKey && k != PositionKey ==> m[k] == metadata[k]
  {
    hide Split, Decimal, Overlapped;
    PositionIsLength(Split(text, SEPARATORS, maxSize), i);
  }

  /** No two chunks share an id. */
  lemma ChunkIdsDistinct(text: Text, sourceId: Text, metadata: Metadata, maxSize: nat, overlap: int, i: nat, j: nat)
    requires maxSize >= 1
    requires var cs := Chunks(text, sourceId, metadata, maxSize, overlap); i < |cs| && j < |cs| && cs[i].id == cs[j].id
    ensures i == j
  {
    ChunkIdInjective(sourceId, i, sourceId, j);
  }
}
