/** Keyword scoring and ranking, identical in `simple_search` and `search`:
    lower-case the query, split it on whitespace, score every chunk by the
    number of query words longer than two characters that occur in the
    lower-cased chunk, keep chunks scoring at least 1, sort them by score,
    highest first (a stable sort, so ties stay in load order), and cut the
    list with `[:top_k]`.

    The source sorts the result records by their `score` key; the model
    ranks chunk positions by their score, which orders the same records the
    same way, and then builds the records. */
module Ranking {
  import opened Text
  import opened Corpus

  /** A result record: `{**chunk_info[i], 'score': score}`. */
  datatype Hit = Hit(info: ChunkInfo, score: nat)

  /** `len(word) > 2 and word in chunk_lower` */
  predicate Counts(word: string, text: string)
  {
    |word| > 2 && Contains(text, word)
  }

  /** The score loop: one point per query word that counts, repeats included. */
  function Score(words: seq<string>, text: string): (r: nat)
    ensures r <= |words|
    decreases |words|
  {
    if |words| == 0 then 0
    else Score(words[..|words| - 1], text) + (if Counts(words[|words| - 1], text) then 1 else 0)
  }

  /** Scores add up over a concatenated query. */
  lemma {:induction false} ScoreAppend(a: seq<string>, b: seq<string>, text: string)
    ensures Score(a + b, text) == Score(a, text) + Score(b, text)
    decreases |b|
  {
    if |b| > 0 {
      var n := |b| - 1;
      assert (a + b)[..|a + b| - 1] == a + b[..n];
      ScoreAppend(a, b[..n], text);
    } else {
      assert a + b == a;
    }
  }

  /** A repeated query word counts each time it occurs. */
  lemma ScoreRepeated(words: seq<string>, text: string)
    ensures Score(words + words, text) == 2 * Score(words, text)
  {
    ScoreAppend(words, words, text);
  }

  /** Words of at most two characters never score. */
  lemma {:induction false} ScoreShortWords(words: seq<string>, text: string)
    requires forall k :: 0 <= k < |words| ==> |words[k]| <= 2
    ensures Score(words, text) == 0
    decreases |words|
  {
    if |words| > 0 {
      ScoreShortWords(words[..|words| - 1], text);
    }
  }

  /** `query.lower().split()` */
  function QueryWords(query: string): seq<string>
  {
    Words(Lower(query))
  }

  /** The score of every chunk, against its lower-cased text. */
  function Scores(chunks: seq<string>, words: seq<string>): (r: seq<nat>)
    ensures |r| == |chunks|
    ensures forall i :: 0 <= i < |r| ==> r[i] <= |words|
  {
    seq(|chunks|, i requires 0 <= i < |chunks| => Score(words, Lower(chunks[i])))
  }

  // ---------------------------------------------------------------------
  // The stable descending sort, on positions

  /** Position `a` is ranked before position `b`: higher score, or equal
      score and loaded earlier. */
  predicate Before(scores: seq<nat>, a: nat, b: nat)
  {
    && a < |scores| && b < |scores|
    && (scores[a] > scores[b] || (scores[a] == scores[b] && a < b))
  }

  predicate InRange(scores: seq<nat>, ps: seq<nat>)
  {
    forall k :: 0 <= k < |ps| ==> ps[k] < |scores|
  }

  /** Sorted by non-increasing score, ties in increasing position. */
  predicate Ranked(scores: seq<nat>, ps: seq<nat>)
  {
    forall i, j :: 0 <= i < j < |ps| ==> Before(scores, ps[i], ps[j])
  }

  predicate Increasing(ps: seq<nat>)
  {
    forall i, j :: 0 <= i < j < |ps| ==> ps[i] < ps[j]
  }

  /** The positions of the chunks that score at least 1, in load order:
      the list `results` before sorting. */
  function Candidates(scores: seq<nat>): (r: seq<nat>)
    ensures InRange(scores, r) && Increasing(r)
    ensures forall k :: 0 <= k < |r| ==> scores[r[k]] > 0
    ensures forall p :: 0 <= p < |scores| && scores[p] > 0 ==> p in r
    decreases |scores|
  {
    if |scores| == 0 then []
    else
      var n := |scores| - 1;
      var prev := Candidates(scores[..n]);
      assert forall k :: 0 <= k < |prev| ==> scores[..n][prev[k]] == scores[prev[k]];
      assert forall p :: 0 <= p < n ==> scores[..n][p] == scores[p];
      prev + (if scores[n] > 0 then [n] else [])
  }

  /** Insert `x` after every element scoring at least as much. */
  function Insert(scores: seq<nat>, x: nat, ps: seq<nat>): (r: seq<nat>)
    requires x < |scores| && InRange(scores, ps)
    ensures |r| == |ps| + 1
    ensures multiset(r) == multiset(ps) + multiset{x}
    ensures forall k :: 0 <= k < |r| ==> r[k] == x || r[k] in ps
    decreases |ps|
  {
    if |ps| == 0 then [x]
    else if scores[ps[0]] < scores[x] then [x] + ps
    else
      assert ps == [ps[0]] + ps[1..];
      [ps[0]] + Insert(scores, x, ps[1..])
  }

  /** Inserting a position loaded after all others keeps the order. */
  lemma {:induction false} InsertRanked(scores: seq<nat>, x: nat, ps: seq<nat>)
    requires x < |scores| && InRange(scores, ps) && Ranked(scores, ps)
    requires forall k :: 0 <= k < |ps| ==> ps[k] < x
    ensures Ranked(scores, Insert(scores, x, ps))
    decreases |ps|
  {
    if |ps| > 0 && scores[ps[0]] >= scores[x] {
      InsertRanked(scores, x, ps[1..]);
      var tail := Insert(scores, x, ps[1..]);
      var r := [ps[0]] + tail;
      forall j | 1 <= j < |r|
        ensures Before(scores, r[0], r[j])
      {
        if r[j] != x {
          var m :| 0 <= m < |ps[1..]| && ps[1..][m] == r[j];
          assert Before(scores, ps[0], ps[m + 1]);
        }
      }
    } else if |ps| > 0 {
      forall j | 0 <= j < |ps|
        ensures Before(scores, x, ps[j])
      {
        if j > 0 {
          assert Before(scores, ps[0], ps[j]);
        }
      }
    }
  }

  /** `results.sort(key=lambda x: x['score'], reverse=True)` on positions
      given in load order: insertion sort, one element at a time. */
  function Sort(scores: seq<nat>, ps: seq<nat>): (r: seq<nat>)
    requires InRange(scores, ps) && Increasing(ps)
    ensures multiset(r) == multiset(ps)
    ensures InRange(scores, r) && Ranked(scores, r)
    decreases |ps|
  {
    if |ps| == 0 then []
    else
      var n := |ps| - 1;
      var sorted := Sort(scores, ps[..n]);
      assert ps == ps[..n] + [ps[n]];
      forall k | 0 <= k < |sorted|
        ensures sorted[k] < ps[n]
      {
        assert sorted[k] in multiset(ps[..n]);
      }
      InsertRanked(scores, ps[n], sorted);
      Insert(scores, ps[n], sorted)
  }

  /** The ranking of all chunks that score at least 1. */
  function Rank(scores: seq<nat>): (r: seq<nat>)
    ensures InRange(scores, r) && Ranked(scores, r)
    ensures |r| == |Candidates(scores)|
    ensures forall k :: 0 <= k < |r| ==> scores[r[k]] > 0
    ensures forall p :: 0 <= p < |scores| && scores[p] > 0 ==> p in r
  {
    var c := Candidates(scores);
    var r := Sort(scores, c);
    SameElements(c, r);
    r
  }

  lemma SameElements(c: seq<nat>, r: seq<nat>)
    requires multiset(r) == multiset(c)
    ensures |r| == |c|
    ensures forall k :: 0 <= k < |r| ==> r[k] in c
    ensures forall p :: p in c ==> p in r
  {
    assert |r| == |multiset(r)| == |multiset(c)| == |c|;
    forall k | 0 <= k < |r|
      ensures r[k] in c
    {
      assert r[k] in multiset(r);
    }
    forall p | p in c
      ensures p in r
    {
      assert p in multiset(c);
    }
  }

  function Min(a: int, b: int): int { if a <= b then a else b }
  function Max(a: int, b: int): int { if a >= b then a else b }

  /** The length of Python's `s[:k]` when `s` has `n` elements: `min(k, n)`,
      or `max(n + k, 0)` for a negative `k`, which counts from the end. */
  function SliceLength(n: nat, k: int): nat
  {
    if k >= 0 then Min(k, n) else Max(n + k, 0)
  }

  /** Python's `s[:k]`: a negative `k` counts from the end. */
  function Take<T>(s: seq<T>, k: int): seq<T>
  {
    if k >= 0 then s[..Min(k, |s|)] else s[..Max(|s| + k, 0)]
  }

  /** Every element a prefix leaves out ranks below every element it keeps. */
  lemma PrefixRanksFirst(scores: seq<nat>, ranked: seq<nat>, n: nat)
    requires Ranked(scores, ranked) && n <= |ranked|
    ensures forall p :: p in ranked && p !in ranked[..n] ==>
              forall k :: 0 <= k < n ==> Before(scores, ranked[k], p)
  {
    forall p, k | p in ranked && p !in ranked[..n] && 0 <= k < n
      ensures Before(scores, ranked[k], p)
    {
      var m :| 0 <= m < |ranked| && ranked[m] == p;
      assert k < m;
    }
  }

  /** A prefix of a ranking of the scoring positions is itself ranked, holds
      only scoring positions, and outranks every scoring position it leaves
      out. */
  lemma PrefixOfRanking(scores: seq<nat>, ranked: seq<nat>, n: nat)
    requires InRange(scores, ranked) && Ranked(scores, ranked) && n <= |ranked|
    requires forall k :: 0 <= k < |ranked| ==> scores[ranked[k]] > 0
    requires forall p :: 0 <= p < |scores| && scores[p] > 0 ==> p in ranked
    ensures var r := ranked[..n];
            && InRange(scores, r) && Ranked(scores, r)
            && (forall k :: 0 <= k < |r| ==> scores[r[k]] >= 1)
            && (forall p :: 0 <= p < |scores| && scores[p] > 0 && p !in r ==>
                  forall k :: 0 <= k < |r| ==> Before(scores, r[k], p))
  {
    PrefixRanksFirst(scores, ranked, n);
  }

  /** The first `topK` (in Python's slice sense) of the ranking. */
  function Top(scores: seq<nat>, topK: int): (r: seq<nat>)
    ensures InRange(scores, r) && Ranked(scores, r)
    ensures forall k :: 0 <= k < |r| ==> scores[r[k]] >= 1
    ensures |r| == SliceLength(|Candidates(scores)|, topK)
    ensures forall p :: 0 <= p < |scores| && scores[p] > 0 && p !in r ==>
              forall k :: 0 <= k < |r| ==> Before(scores, r[k], p)
  {
    var ranked := Rank(scores);
    var r := Take(ranked, topK);
    assert |r| == SliceLength(|ranked|, topK) && r == ranked[..|r|];
    PrefixOfRanking(scores, ranked, |r|);
    r
  }

  /** The positions `[:top_k]` returns: ranked, every one scoring at least 1,
      at most `top_k` of them, and every scoring chunk left out ranks below
      every one returned. */
  function RankedPositions(index: Index, query: string, topK: int): (r: seq<nat>)
    ensures var scores := Scores(index.chunks, QueryWords(query));
            && InRange(scores, r)
            && Ranked(scores, r)
            && (forall k :: 0 <= k < |r| ==> scores[r[k]] >= 1)
            && |r| == SliceLength(|Candidates(scores)|, topK)
            && (forall p :: 0 <= p < |scores| && scores[p] > 0 && p !in r ==>
                  forall k :: 0 <= k < |r| ==> Before(scores, r[k], p))
  {
    Top(Scores(index.chunks, QueryWords(query)), topK)
  }

  /** The records at `pos`, each with its score. */
  function HitsAt(info: seq<ChunkInfo>, scores: seq<nat>, pos: seq<nat>): seq<Hit>
    requires |info| == |scores| && InRange(scores, pos)
  {
    seq(|pos|, k requires 0 <= k < |pos| => Hit(info[pos[k]], scores[pos[k]]))
  }

  /** The search body shared by both retrievers: the records of the ranked
      positions, each with its score. */
  function SearchIndex(index: Index, query: string, topK: int): (r: seq<Hit>)
    requires index.Valid()
    ensures topK >= 0 ==> |r| <= topK
    ensures forall k :: 0 <= k < |r| ==> r[k].score >= 1
    ensures forall i, j :: 0 <= i < j < |r| ==> r[i].score >= r[j].score
    ensures var pos := RankedPositions(index, query, topK);
            && |r| == |pos|
            && (forall k :: 0 <= k < |r| ==>
                  r[k] == Hit(index.info[pos[k]], Score(QueryWords(query), Lower(index.chunks[pos[k]]))))
            // equal scores keep load order
            && (forall i, j :: 0 <= i < j < |r| && r[i].score == r[j].score ==> pos[i] < pos[j])
  {
    var scores := Scores(index.chunks, QueryWords(query));
    var pos := RankedPositions(index, query, topK);
    RankedScoresDescend(scores, pos);
    HitsAt(index.info, scores, pos)
  }

  lemma RankedScoresDescend(scores: seq<nat>, pos: seq<nat>)
    requires InRange(scores, pos) && Ranked(scores, pos)
    ensures forall i, j :: 0 <= i < j < |pos| ==> scores[pos[i]] >= scores[pos[j]]
    ensures forall i, j :: 0 <= i < j < |pos| && scores[pos[i]] == scores[pos[j]] ==> pos[i] < pos[j]
  {
    forall i, j | 0 <= i < j < |pos|
      ensures scores[pos[i]] >= scores[pos[j]]
      ensures scores[pos[i]] == scores[pos[j]] ==> pos[i] < pos[j]
    {
      assert Before(scores, pos[i], pos[j]);
    }
  }

  /** A query whose every word has at most two characters finds nothing. */
  lemma ShortQueryFindsNothing(index: Index, query: string, topK: int)
    requires index.Valid()
    requires forall k :: 0 <= k < |QueryWords(query)| ==> |QueryWords(query)[k]| <= 2
    ensures SearchIndex(index, query, topK) == []
  {
    var scores := Scores(index.chunks, QueryWords(query));
    forall i | 0 <= i < |scores|
      ensures scores[i] == 0
    {
      ScoreShortWords(QueryWords(query), Lower(index.chunks[i]));
    }
    TopOfZeros(scores, topK);
    assert RankedPositions(index, query, topK) == [];
  }

  lemma TopOfZeros(scores: seq<nat>, topK: int)
    requires forall i :: 0 <= i < |scores| ==> scores[i] == 0
    ensures Top(scores, topK) == []
  {
  }

  // ---------------------------------------------------------------------
  // The lazy load in front of the search

  /** The hits of a search and the retriever's state after it. */
  datatype SearchOutcome = SearchOutcome(hits: seq<Hit>, index: Index)

  /** `if not self.chunks: self.load_documents()`: the folder is loaded only
      when the index is empty. */
  function LoadIfEmpty(index: Index, folder: seq<Document>, fileChunks: (string, string) -> seq<ChunkInfo>): (r: Index)
    requires index.Valid()
    ensures r.Valid()
    ensures index.chunks != [] ==> r == index
    ensures index.chunks == [] ==> r == Append(index, Collect(folder, fileChunks))
  {
    LoadValid(index, folder, fileChunks);
    LoadAppends(index, folder, fileChunks);
    if index.chunks == [] then Load(index, folder, fileChunks) else index
  }

  /** The lazy load, then the search of the loaded index. A non-empty index
      is searched as it is. */
  function LazySearch(index: Index, folder: seq<Document>, fileChunks: (string, string) -> seq<ChunkInfo>,
                      query: string, topK: int): (r: SearchOutcome)
    requires index.Valid()
    ensures r.index.Valid()
    ensures index.chunks != [] ==> r.index == index
    ensures index.chunks == [] ==> r.index == Append(index, Collect(folder, fileChunks))
    ensures r.hits == SearchIndex(r.index, query, topK)
    ensures topK >= 0 ==> |r.hits| <= topK
    ensures forall k :: 0 <= k < |r.hits| ==> r.hits[k].score >= 1 && r.hits[k].info in r.index.info
    ensures forall i, j :: 0 <= i < j < |r.hits| ==> r.hits[i].score >= r.hits[j].score
  {
    var loaded := LoadIfEmpty(index, folder, fileChunks);
    SearchOutcome(SearchIndex(loaded, query, topK), loaded)
  }

  /** Once a search has loaded something, later searches do not load again:
      the index stays what the first search left. */
  lemma LoadsOnce(folder: seq<Document>, fileChunks: (string, string) -> seq<ChunkInfo>,
                  q1: string, k1: int, q2: string, k2: int)
    requires Collect(folder, fileChunks) != []
    ensures var first := LazySearch(Empty, folder, fileChunks, q1, k1);
            LazySearch(first.index, folder, fileChunks, q2, k2).index == first.index
  {
    var first := LazySearch(Empty, folder, fileChunks, q1, k1);
    assert |first.index.info| > 0;
  }
}
