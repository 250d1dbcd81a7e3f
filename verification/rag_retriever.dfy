/** `SimpleRetriever` of `agent/Rag/retrieval.py`: the same as the agent's
    copy except that `_split_into_chunks` drops the blank pieces (and strips
    the rest) before the chunking loop numbers them, so the chunks of a file
    are numbered 0, 1, 2, ... without gaps. */
module RagRetriever {
  import opened Text
  import opened Paragraphs
  import opened Corpus
  import opened Ranking
  import GraphRetriever

  /** `[chunk.strip() for chunk in chunks if chunk.strip()]` */
  function StripNonBlank(pieces: seq<string>): (r: seq<string>)
    ensures |r| <= |pieces|
    ensures forall k :: 0 <= k < |r| ==> r[k] != [] && Stripped(r[k])
    decreases |pieces|
  {
    if |pieces| == 0 then []
    else
      var n := |pieces| - 1;
      var p := Strip(pieces[n]);
      StripSpec(pieces[n]);
      StripNonBlank(pieces[..n]) + (if p != [] then [p] else [])
  }

  /** `r` holds the pieces at positions `idx`, stripped. */
  predicate StrippedAt(pieces: seq<string>, idx: seq<nat>, r: seq<string>)
  {
    && |r| == |idx|
    && forall k :: 0 <= k < |r| ==> idx[k] < |pieces| && r[k] == Strip(pieces[idx[k]])
  }

  lemma StrippedAtStep(pieces: seq<string>, prev: seq<nat>, prevR: seq<string>)
    requires |pieces| > 0 && StrippedAt(pieces[..|pieces| - 1], prev, prevR)
    ensures var n := |pieces| - 1;
            var p := Strip(pieces[n]);
            StrippedAt(pieces, prev + (if p != [] then [n] else []), prevR + (if p != [] then [p] else []))
  {
    var n := |pieces| - 1;
    assert forall k :: 0 <= k < |prev| ==> pieces[..n][prev[k]] == pieces[prev[k]];
  }

  /** The comprehension keeps exactly the non-blank pieces, stripped, in
      order. */
  lemma {:induction false} StripNonBlankKept(pieces: seq<string>)
    ensures StrippedAt(pieces, KeptIndices(pieces), StripNonBlank(pieces))
    decreases |pieces|
  {
    if |pieces| > 0 {
      var n := |pieces| - 1;
      StripNonBlankKept(pieces[..n]);
      StrippedAtStep(pieces, KeptIndices(pieces[..n]), StripNonBlank(pieces[..n]));
    }
  }

  /** `_split_into_chunks`: every element is non-blank and already stripped,
      and they are the non-blank pieces of the split, in order. */
  function SplitIntoChunks(text: string): (r: seq<string>)
    ensures forall k :: 0 <= k < |r| ==> r[k] != [] && Stripped(r[k])
    ensures var pieces := SplitText(text);
            var idx := KeptIndices(pieces);
            && |r| == |idx|
            && forall k :: 0 <= k < |r| ==> r[k] == Strip(pieces[idx[k]])
  {
    StripNonBlankKept(SplitText(text));
    StripNonBlank(SplitText(text))
  }

  /** The records one file contributes. */
  function FileChunks(name: string, content: string): seq<ChunkInfo>
  {
    ChunkParagraphs(SourceName(name), SplitIntoChunks(content))
  }

  /** The `if paragraph.strip()` guard never rejects a chunk, and the
      records are numbered `::chunk0` to `::chunk(k-1)` in split order. */
  lemma FileChunksConsecutive(name: string, content: string)
    ensures var chunks := SplitIntoChunks(content);
            var r := FileChunks(name, content);
            && |r| == |chunks|
            && forall k :: 0 <= k < |r| ==>
                 r[k] == ChunkInfo(SourceName(name), ChunkId(SourceName(name), k), chunks[k])
  {
    ChunkParagraphsConsecutive(SourceName(name), SplitIntoChunks(content));
  }

  /** A strictly increasing sequence of naturals has `s[k] >= k`. */
  lemma {:induction false} IncreasingAtLeastIndex(s: seq<nat>, k: nat)
    requires forall i, j :: 0 <= i < j < |s| ==> s[i] < s[j]
    requires k < |s|
    ensures k <= s[k]
  {
    if k > 0 {
      IncreasingAtLeastIndex(s, k - 1);
    }
  }

  /** The two copies make the same records from a file, except that this one
      numbers the k-th record k where the agent's copy numbers it by its
      position in the raw split, which is never smaller. */
  lemma SameChunksRenumbered(name: string, content: string)
    ensures var g := GraphRetriever.FileChunks(name, content);
            var r := FileChunks(name, content);
            var idx := KeptIndices(SplitText(content));
            && |g| == |r| == |idx|
            && forall k :: 0 <= k < |r| ==>
                 && g[k].source == r[k].source
                 && g[k].content == r[k].content
                 && r[k].chunkId == ChunkId(SourceName(name), k)
                 && g[k].chunkId == ChunkId(SourceName(name), idx[k])
                 && k <= idx[k]
  {
    GraphRetriever.FileChunkIds(name, content);
    FileChunksConsecutive(name, content);
    RenumberedRecords(SourceName(name), SplitText(content), KeptIndices(SplitText(content)),
                      SplitIntoChunks(content), GraphRetriever.FileChunks(name, content),
                      FileChunks(name, content));
  }

  /** The per-record step of `SameChunksRenumbered`, over the records as
      given: the agent's copy numbers by raw position `idx[k]`, this copy by
      rank `k`, and both hold the same stripped piece. */
  lemma RenumberedRecords(src: string, pieces: seq<string>, idx: seq<nat>,
                          chunks: seq<string>, g: seq<ChunkInfo>, r: seq<ChunkInfo>)
    requires |g| == |idx| == |chunks| == |r|
    requires forall k :: 0 <= k < |idx| ==> idx[k] < |pieces|
    requires forall i, j :: 0 <= i < j < |idx| ==> idx[i] < idx[j]
    requires forall k :: 0 <= k < |chunks| ==> chunks[k] == Strip(pieces[idx[k]])
    requires forall k :: 0 <= k < |g| ==> g[k] == ChunkInfo(src, ChunkId(src, idx[k]), Strip(pieces[idx[k]]))
    requires forall k :: 0 <= k < |r| ==> r[k] == ChunkInfo(src, ChunkId(src, k), chunks[k])
    ensures forall k :: 0 <= k < |r| ==>
              && g[k].source == r[k].source
              && g[k].content == r[k].content
              && r[k].chunkId == ChunkId(src, k)
              && g[k].chunkId == ChunkId(src, idx[k])
              && k <= idx[k]
  {
    KeptIndicesAtLeastPosition(idx);
  }

  /** Each kept position is at least its rank among the kept ones. */
  lemma KeptIndicesAtLeastPosition(idx: seq<nat>)
    requires forall i, j :: 0 <= i < j < |idx| ==> idx[i] < idx[j]
    ensures forall k :: 0 <= k < |idx| ==> k <= idx[k]
  {
    forall k | 0 <= k < |idx|
      ensures k <= idx[k]
    {
      IncreasingAtLeastIndex(idx, k);
    }
  }

  /** One directory entry gives the same chunk texts in both copies. */
  lemma SameFileContents(d: Document)
    ensures Contents(FileContribution(d, FileChunks)) == Contents(FileContribution(d, GraphRetriever.FileChunks))
  {
    if Eligible(d.name) && d.content.Some? {
      SameChunksRenumbered(d.name, d.content.value);
    }
  }

  /** Over a whole folder the two copies load the same chunk texts. */
  lemma {:induction false} SameContents(folder: seq<Document>)
    ensures Contents(Collect(folder, FileChunks)) == Contents(Collect(folder, GraphRetriever.FileChunks))
    decreases |folder|
  {
    if |folder| > 0 {
      SameContents(folder[1..]);
      SameFileContents(folder[0]);
      ContentsAppend(FileContribution(folder[0], FileChunks), Collect(folder[1..], FileChunks));
      ContentsAppend(FileContribution(folder[0], GraphRetriever.FileChunks), Collect(folder[1..], GraphRetriever.FileChunks));
    }
  }

  /** `load_documents` */
  function LoadDocuments(index: Index, folder: seq<Document>): (r: Index)
    ensures r == Append(index, Collect(folder, FileChunks))
    ensures index.Valid() ==> r.Valid()
  {
    LoadAppends(index, folder, FileChunks);
    if index.Valid() then
      LoadValid(index, folder, FileChunks);
      Load(index, folder, FileChunks)
    else
      Load(index, folder, FileChunks)
  }

  /** Loading twice without clearing leaves every chunk in the index twice. */
  lemma LoadTwiceDoubles(folder: seq<Document>)
    ensures var once := LoadDocuments(Empty, folder);
            var twice := LoadDocuments(once, folder);
            && twice.chunks == once.chunks + once.chunks
            && |twice.info| == 2 * |once.info|
  {
    DoubleLoad(folder, FileChunks);
  }

  /** `search`: load when the index is empty, then return at most `top_k`
      records, each scoring at least 1, highest score first. */
  function Search(index: Index, folder: seq<Document>, query: string, topK: int): (r: SearchOutcome)
    requires index.Valid()
    ensures r.index.Valid()
    ensures r.index == if index.chunks == [] then LoadDocuments(index, folder) else index
    ensures r.hits == SearchIndex(r.index, query, topK)
    ensures topK >= 0 ==> |r.hits| <= topK
    ensures forall k :: 0 <= k < |r.hits| ==> r.hits[k].score >= 1 && r.hits[k].info in r.index.info
    ensures forall i, j :: 0 <= i < j < |r.hits| ==> r.hits[i].score >= r.hits[j].score
  {
    LazySearch(index, folder, FileChunks, query, topK)
  }

  /** From a fresh start, both copies find the same chunk texts with the same
      scores in the same order; only the chunk ids may differ. */
  lemma SameHitsAsAgentCopy(folder: seq<Document>, query: string, topK: int)
    ensures var a := Search(Empty, folder, query, topK).hits;
            var b := GraphRetriever.SimpleSearch(Empty, folder, query, topK).hits;
            && |a| == |b|
            && forall k :: 0 <= k < |a| ==>
                 a[k].score == b[k].score && a[k].info.content == b[k].info.content
  {
    SameContents(folder);
    var ri := LoadDocuments(Empty, folder);
    var gi := GraphRetriever.LoadDocuments(Empty, folder);
    assert ri.chunks == gi.chunks;
    assert RankedPositions(ri, query, topK) == RankedPositions(gi, query, topK);
  }
}
