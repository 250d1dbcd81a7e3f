/** `SimpleRetriever` as the agent uses it (`agent/graph_simple.py`): every
    piece of the regular-expression split is numbered by its position in
    the split, blank ones included, so the kept chunks of a file may skip
    numbers. */
module GraphRetriever {
  import opened Results
  import opened Text
  import opened Paragraphs
  import opened Corpus
  import opened Ranking

  /** The records one file contributes: its non-blank paragraphs, stripped,
      numbered by their position in `re.split(r'\n\s*\n|#+ ', content)`. */
  function FileChunks(name: string, content: string): seq<ChunkInfo>
  {
    ChunkParagraphs(SourceName(name), SplitText(content))
  }

  /** The records of a file are its non-blank split pieces in order, and
      their numbers are the pieces' positions in the split: strictly
      increasing, but with a gap wherever a blank piece was dropped. */
  lemma FileChunkIds(name: string, content: string)
    ensures var pieces := SplitText(content);
            var idx := KeptIndices(pieces);
            var r := FileChunks(name, content);
            && |r| == |idx|
            && (forall k :: 0 <= k < |r| ==>
                  r[k] == ChunkInfo(SourceName(name), ChunkId(SourceName(name), idx[k]), Strip(pieces[idx[k]])))
            && (forall k, l :: 0 <= k < l < |r| ==> idx[k] < idx[l])
            && (forall j :: 0 <= j < |pieces| && !AllSpace(pieces[j]) ==> j in idx)
  {
    var pieces := SplitText(content);
    ChunkParagraphsKept(SourceName(name), pieces);
    forall j | 0 <= j < |pieces| && !AllSpace(pieces[j])
      ensures j in KeptIndices(pieces)
    {
      StripEmptyIff(pieces[j]);
    }
  }

  /** A file that opens with a heading: the split starts with an empty piece,
      so the first chunk of the file is numbered 1, not 0. */
  lemma HeadingFirstIsChunkOne()
    ensures FileChunks("notes.txt", "# Hi") == [ChunkInfo("notes", "notes::chunk1", "Hi")]
  {
    SplitOfHeading();
    NotesSource();
    ChunksOfHeadingSplit();
  }

  lemma NotesSource()
    ensures SourceName("notes.txt") == "notes"
  {
    ContainsIff("notes", ".txt");
    forall i | 0 <= i <= 1
      ensures !OccursAt("notes", ".txt", i)
    {
      assert "notes"[i] != '.';
    }
    RemoveTxtSuffix("notes");
    assert "notes" + ".txt" == "notes.txt";
  }

  lemma ChunksOfHeadingSplit()
    ensures ChunkParagraphs("notes", ["", "Hi"]) == [ChunkInfo("notes", "notes::chunk1", "Hi")]
  {
    var ps := ["", "Hi"];
    assert ps[..1] == [""];
    assert ChunkParagraphs("notes", [""]) == [] by {
      assert Strip("") == "";
      assert [""][..0] == [];
    }
    assert Strip("Hi") == "Hi" by {
      StripStripped("Hi");
    }
    assert ChunkId("notes", 1) == "notes::chunk1" by {
      assert NatToString(1) == "1";
    }
  }

  lemma SplitOfHeading()
    ensures SplitText("# Hi") == ["", "Hi"]
  {
    var s := "# Hi";
    assert HashRunEnd(s, 1) == 1;
    assert MatchLength(s, 0) == 2;
    assert MatchLength(s, 2) == 0;
    assert MatchLength(s, 3) == 0;
    assert Scan(s, 2, 4) == Split(["Hi"], []) by {
      assert s[2..] == "Hi";
    }
    assert Scan(s, 2, 2) == Split(["Hi"], []);
    assert s[0..0] == "" && s[0..2] == "# ";
  }

  /** `load_documents`: the records of every eligible, readable file of the
      folder appended to both lists, in directory order. */
  function LoadDocuments(index: Index, folder: seq<Document>): (r: Index)
    ensures r == Append(index, Collect(folder, FileChunks))
    ensures index.Valid() ==> r.Valid()
  {
    LoadAppends(index, folder, FileChunks);
    if index.Valid() then
      LoadValid(index, folder, FileChunks);
      Load(index, folder, FileChunks)
    else
      Load(index, folder, FileChunks)
  }

  /** Loading twice without clearing leaves every chunk in the index twice. */
  lemma LoadTwiceDoubles(folder: seq<Document>)
    ensures var once := LoadDocuments(Empty, folder);
            var twice := LoadDocuments(once, folder);
            && twice.chunks == once.chunks + once.chunks
            && |twice.info| == 2 * |once.info|
  {
    DoubleLoad(folder, FileChunks);
  }

  /** `simple_search`: load when the index is empty, then return at most
      `top_k` records of the loaded chunks, each scoring at least 1, highest
      score first. */
  function SimpleSearch(index: Index, folder: seq<Document>, query: string, topK: int): (r: SearchOutcome)
    requires index.Valid()
    ensures r.index.Valid()
    ensures r.index == if index.chunks == [] then LoadDocuments(index, folder) else index
    ensures r.hits == SearchIndex(r.index, query, topK)
    ensures topK >= 0 ==> |r.hits| <= topK
    ensures forall k :: 0 <= k < |r.hits| ==> r.hits[k].score >= 1 && r.hits[k].info in r.index.info
    ensures forall i, j :: 0 <= i < j < |r.hits| ==> r.hits[i].score >= r.hits[j].score
  {
    LazySearch(index, folder, FileChunks, query, topK)
  }
}
