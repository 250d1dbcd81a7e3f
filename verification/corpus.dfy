/** What both `SimpleRetriever` copies share: the chunk record, the index of
    two parallel lists, the per-file chunking loop and the folder loading
    loop. The copies differ only in the paragraph list they feed the
    chunking loop (see GraphRetriever and RagRetriever). */
module Corpus {
  import opened Results
  import opened Text

  /** One entry of `chunk_info`. */
  datatype ChunkInfo = ChunkInfo(source: string, chunkId: string, content: string)

  /** The retriever's state: the lists `chunks` and `chunk_info`. */
  datatype Index = Index(chunks: seq<string>, info: seq<ChunkInfo>)
  {
    /** The lists have equal length and `chunk_info[i]['content'] == chunks[i]`. */
    predicate Valid()
    {
      && |chunks| == |info|
      && forall i :: 0 <= i < |chunks| ==> info[i].content == chunks[i]
    }
  }

  /** The state after `__init__`. */
  const Empty := Index([], [])

  /** A directory entry in `os.listdir` order; `content` is what `f.read()`
      returns in text mode, after universal-newline translation (so it holds
      no `"\r\n"`), or None when opening or decoding the file raised (the
      loader catches that and skips it). */
  datatype Document = Document(name: string, content: Option<string>)

  /** `f.endswith('.md') or f.endswith('.txt')` */
  predicate Eligible(name: string)
  {
    EndsWith(name, ".md") || EndsWith(name, ".txt")
  }

  /** `file_name.replace('.txt', '')` */
  function SourceName(name: string): string
  {
    RemoveAll(name, ".txt")
  }

  /** `f"{source}::chunk{n}"` */
  function ChunkId(source: string, n: nat): string
  {
    source + "::chunk" + NatToString(n)
  }

  /** Within one source, different ordinals give different chunk ids. */
  lemma ChunkIdInjective(source: string, i: nat, j: nat)
    requires ChunkId(source, i) == ChunkId(source, j)
    ensures i == j
  {
    var k := |source + "::chunk"|;
    assert ChunkId(source, i)[k..] == NatToString(i);
    assert ChunkId(source, j)[k..] == NatToString(j);
    ParseNatToString(i);
    ParseNatToString(j);
  }

  /** The per-file loop `for i, paragraph in enumerate(paragraphs): if
      paragraph.strip(): ...`, which records every non-blank paragraph,
      stripped, under the ordinal it had in `paragraphs`. */
  function ChunkParagraphs(source: string, paragraphs: seq<string>): (r: seq<ChunkInfo>)
    ensures |r| <= |paragraphs|
    ensures forall k :: 0 <= k < |r| ==> r[k].source == source && r[k].content != [] && Stripped(r[k].content)
    decreases |paragraphs|
  {
    if |paragraphs| == 0 then []
    else
      var n := |paragraphs| - 1;
      var p := Strip(paragraphs[n]);
      StripSpec(paragraphs[n]);
      ChunkParagraphs(source, paragraphs[..n]) + (if p != [] then [ChunkInfo(source, ChunkId(source, n), p)] else [])
  }

  /** The positions of the non-blank paragraphs, in increasing order. */
  function KeptIndices(ps: seq<string>): (r: seq<nat>)
    ensures forall k :: 0 <= k < |r| ==> r[k] < |ps| && Strip(ps[r[k]]) != []
    ensures forall k, l :: 0 <= k < l < |r| ==> r[k] < r[l]
    ensures forall j :: 0 <= j < |ps| && Strip(ps[j]) != [] ==> j in r
    decreases |ps|
  {
    if |ps| == 0 then []
    else
      var n := |ps| - 1;
      var prev := KeptIndices(ps[..n]);
      KeptIndicesStep(ps, prev);
      prev + (if Strip(ps[n]) != [] then [n] else [])
  }

  lemma KeptIndicesStep(ps: seq<string>, prev: seq<nat>)
    requires |ps| > 0
    requires var n := |ps| - 1;
             && (forall k :: 0 <= k < |prev| ==> prev[k] < n && Strip(ps[..n][prev[k]]) != [])
             && (forall k, l :: 0 <= k < l < |prev| ==> prev[k] < prev[l])
             && (forall j :: 0 <= j < n && Strip(ps[..n][j]) != [] ==> j in prev)
    ensures var n := |ps| - 1;
            var r := prev + (if Strip(ps[n]) != [] then [n] else []);
            && (forall k :: 0 <= k < |r| ==> r[k] < |ps| && Strip(ps[r[k]]) != [])
            && (forall k, l :: 0 <= k < l < |r| ==> r[k] < r[l])
            && (forall j :: 0 <= j < |ps| && Strip(ps[j]) != [] ==> j in r)
  {
    var n := |ps| - 1;
    assert forall j :: 0 <= j < n ==> ps[..n][j] == ps[j];
  }

  /** The records numbered by the kept positions `idx`. */
  predicate NumberedBy(source: string, ps: seq<string>, idx: seq<nat>, r: seq<ChunkInfo>)
  {
    && |r| == |idx|
    && forall k :: 0 <= k < |r| ==> idx[k] < |ps| && r[k] == ChunkInfo(source, ChunkId(source, idx[k]), Strip(ps[idx[k]]))
  }

  lemma NumberedByStep(source: string, ps: seq<string>, prev: seq<nat>, prevR: seq<ChunkInfo>)
    requires |ps| > 0 && NumberedBy(source, ps[..|ps| - 1], prev, prevR)
    ensures var n := |ps| - 1;
            var p := Strip(ps[n]);
            NumberedBy(source, ps, prev + (if p != [] then [n] else []),
                       prevR + (if p != [] then [ChunkInfo(source, ChunkId(source, n), p)] else []))
  {
    var n := |ps| - 1;
    assert forall k :: 0 <= k < |prev| ==> ps[..n][prev[k]] == ps[prev[k]];
  }

  /** The chunk records of one file are exactly its non-blank paragraphs, in
      order, each numbered by its position among ALL paragraphs, blank ones
      included. */
  lemma {:induction false} ChunkParagraphsKept(source: string, ps: seq<string>)
    ensures NumberedBy(source, ps, KeptIndices(ps), ChunkParagraphs(source, ps))
    decreases |ps|
  {
    if |ps| > 0 {
      var n := |ps| - 1;
      ChunkParagraphsKept(source, ps[..n]);
      NumberedByStep(source, ps, KeptIndices(ps[..n]), ChunkParagraphs(source, ps[..n]));
    }
  }

  /** When every paragraph is already stripped and non-blank, the guard
      keeps them all and the ordinals run 0, 1, 2, ... without gaps. */
  lemma {:induction false} ChunkParagraphsConsecutive(source: string, ps: seq<string>)
    requires forall k :: 0 <= k < |ps| ==> ps[k] != [] && Stripped(ps[k])
    ensures var r := ChunkParagraphs(source, ps);
            && |r| == |ps|
            && forall k :: 0 <= k < |r| ==> r[k] == ChunkInfo(source, ChunkId(source, k), ps[k])
    decreases |ps|
  {
    if |ps| > 0 {
      var n := |ps| - 1;
      ChunkParagraphsConsecutive(source, ps[..n]);
      StripStripped(ps[n]);
    }
  }

  /** The `content` fields, in order. */
  function Contents(infos: seq<ChunkInfo>): seq<string>
  {
    seq(|infos|, k requires 0 <= k < |infos| => infos[k].content)
  }

  /** Appending records to both lists in lockstep. */
  function Append(index: Index, infos: seq<ChunkInfo>): Index
  {
    Index(index.chunks + Contents(infos), index.info + infos)
  }

  lemma ContentsAppend(a: seq<ChunkInfo>, b: seq<ChunkInfo>)
    ensures Contents(a + b) == Contents(a) + Contents(b)
  {
  }

  lemma AppendAppend(index: Index, a: seq<ChunkInfo>, b: seq<ChunkInfo>)
    ensures Append(Append(index, a), b) == Append(index, a + b)
  {
    ContentsAppend(a, b);
  }

  /** What one directory entry contributes: nothing if its name is not
      eligible or reading it raised. */
  function FileContribution(d: Document, fileChunks: (string, string) -> seq<ChunkInfo>): seq<ChunkInfo>
  {
    if Eligible(d.name) && d.content.Some? then fileChunks(d.name, d.content.value) else []
  }

  /** All records a folder contributes, file after file. */
  function Collect(folder: seq<Document>, fileChunks: (string, string) -> seq<ChunkInfo>): seq<ChunkInfo>
    decreases |folder|
  {
    if |folder| == 0 then [] else FileContribution(folder[0], fileChunks) + Collect(folder[1..], fileChunks)
  }

  /** The `load_documents` loop: file by file, append that file's records.
      It never clears the lists. */
  function Load(index: Index, folder: seq<Document>, fileChunks: (string, string) -> seq<ChunkInfo>): Index
    decreases |folder|
  {
    if |folder| == 0 then index
    else Load(Append(index, FileContribution(folder[0], fileChunks)), folder[1..], fileChunks)
  }

  /** Loading only appends: the result is the old index followed by the
      folder's records, whatever the index held before. */
  lemma {:induction false} LoadAppends(index: Index, folder: seq<Document>, fileChunks: (string, string) -> seq<ChunkInfo>)
    ensures Load(index, folder, fileChunks) == Append(index, Collect(folder, fileChunks))
    decreases |folder|
  {
    if |folder| > 0 {
      var first := FileContribution(folder[0], fileChunks);
      LoadAppends(Append(index, first), folder[1..], fileChunks);
      AppendAppend(index, first, Collect(folder[1..], fileChunks));
    }
  }

  /** Loading keeps the two lists in lockstep. */
  lemma LoadValid(index: Index, folder: seq<Document>, fileChunks: (string, string) -> seq<ChunkInfo>)
    requires index.Valid()
    ensures Load(index, folder, fileChunks).Valid()
    ensures |index.chunks| <= |Load(index, folder, fileChunks).chunks|
    ensures Load(index, folder, fileChunks).chunks[..|index.chunks|] == index.chunks
  {
    LoadAppends(index, folder, fileChunks);
  }

  /** Loading the same folder twice without clearing doubles the index:
      every chunk is there twice. */
  lemma DoubleLoad(folder: seq<Document>, fileChunks: (string, string) -> seq<ChunkInfo>)
    ensures var once := Load(Empty, folder, fileChunks);
            var twice := Load(once, folder, fileChunks);
            && twice.chunks == once.chunks + once.chunks
            && twice.info == once.info + once.info
            && |twice.chunks| == 2 * |once.chunks|
  {
    var once := Load(Empty, folder, fileChunks);
    LoadAppends(Empty, folder, fileChunks);
    LoadAppends(once, folder, fileChunks);
    assert once.chunks == [] + Contents(Collect(folder, fileChunks));
    assert once.info == [] + Collect(folder, fileChunks);
  }
}
