# retail_analytics_CO hybrid agent — Dafny model

This project models the deterministic question-answering pipeline of
`SimpleHybridAgent` in retail_analytics_CO. The pipeline has four steps:

1. A keyword router decides whether a question needs the documents (`rag`),
   the database (`sql`) or both (`hybrid`).
2. A keyword retriever searches a corpus of paragraph chunks.
3. A template SQL generator produces a statement, and a SQLite tool runs it.
4. A template answer synthesizer produces the final answer, explanation and
   citations.

The model is functional. The retriever's state is a record of two parallel
sequences (`chunks`, `chunk_info`). The documents folder is a sequence of
(name, content) entries in directory order. The database is an oracle: the
catalog's table names, the columns per `PRAGMA table_info` statement, and
the result of executing a statement.

Modules, in dependency order:

| module | models |
|---|---|
| `Results` | `Option`, and `Result` for "returns or raises" |
| `Text` | Python's `isspace`, `lower`, `in`, `strip`, `split()`, `replace(pat, "")`, `endswith`, `str(int)` |
| `Paragraphs` | `re.split(r'\n\s*\n\|#+ ', text)` as a left-to-right longest-match scanner |
| `Corpus` | chunk records, the two-list index, the per-file chunking loop, the folder loading loop |
| `Ranking` | scoring, the stable descending sort, `[:top_k]`, and the load-on-first-search step |
| `GraphRetriever` | `SimpleRetriever` of `agent/graph_simple.py` |
| `RagRetriever` | `SimpleRetriever` of `agent/Rag/retrieval.py` |
| `SqlTool` | `SQLiteTool`: quoting, `get_schema`, `run_query`, `get_sample_data` |
| `Rules` | first-match cue tables, and the six question templates |
| `Router`, `SqlGenerator`, `AnswerSynthesizer` | the three `predict` methods |
| `Agent` | `SimpleHybridAgent.run` |

Some facts were found while stating the contracts:

- The SQL generator's return-policy branch, the only one with an empty
  statement, can never be reached from `run`. That branch needs
  "return policy". This contains "policy", and "policy" sends the question
  down the documents route, where no statement is generated
  (`Agent.DatabaseRouteHasStatement`). So in `run` a statement exists
  exactly on the `sql` and `hybrid` routes.
- In `retrieval.py`, `_split_into_chunks` filters before the loop numbers
  the chunks. So the loop's `strip()` guard never rejects anything, and ids
  run from 0 without gaps. In `graph_simple.py` the loop numbers the raw
  pieces, so ids skip the dropped blank pieces. For example, a file that
  starts with a heading has no `::chunk0` (`GraphRetriever.HeadingFirstIsChunkOne`).
  Both copies store the same chunk texts. From a fresh start, both return
  the same ranked texts and scores (`RagRetriever.SameHitsAsAgentCopy`).

Behaviour a reader might not expect:

- A chunk's score counts every query word longer than two characters that
  occurs in the chunk, repeated words included (`Ranking.ScoreRepeated`).
  It does not count distinct words.
- The answer synthesizer never reads its SQL-results or document-context
  arguments. It cites the same sources whether or not they are empty
  (`AnswerSynthesizer.IgnoresContext`).
- `get_schema` reads the catalog outside its `try`, so a failing catalog
  read raises out of `run` on the `sql` and `hybrid` routes. `Agent.Run`
  therefore yields a `Result`, and it fails exactly in that case.

## Model

| member | source | states |
|---|---|---|
| Text.Contains | retail_analytics_CO/agent/graph_simple.py:74 | no contract; see `Text.ContainsIff` |
| Text.Strip | retail_analytics_CO/agent/graph_simple.py:49-50 | no contract; see `Text.StripSpec` and `Text.StripEmptyIff` |
| Text.RemoveAll | retail_analytics_CO/agent/graph_simple.py:52 | the result is never longer than the input; see `Text.RemoveAllAbsent` and `Text.RemoveTxtSuffix` |
| Text.Lower | retail_analytics_CO/agent/graph_simple.py:66 | `lower()` maps each character separately and keeps the length |
| Text.ContainsIff | retail_analytics_CO/agent/graph_simple.py:74 | `word in chunk_lower` holds exactly when the word occurs at some index of the chunk |
| Text.ContainsTransitive | retail_analytics_CO/agent/graph_simple.py:174 | a text containing a phrase contains every part of it |
| Text.StripSpec | retail_analytics_CO/agent/graph_simple.py:49-50 | `strip()` removes only surrounding whitespace and leaves neither end as whitespace |
| Text.StripEmptyIff | retail_analytics_CO/agent/graph_simple.py:49 | `if paragraph.strip():` rejects exactly the all-whitespace paragraphs |
| Text.StripStripped | retail_analytics_CO/agent/Rag/retrieval.py:28-29 | stripping an already stripped string changes nothing |
| Text.Words | retail_analytics_CO/agent/graph_simple.py:66 | `split()` yields non-empty words with no whitespace inside; see `Text.WordsSpaced` and `Text.WordsGaps` for the words themselves |
| Text.WordsJoinWords | retail_analytics_CO/agent/graph_simple.py:66 | splitting space-joined words gives back the words |
| Text.WordsAllSpace | retail_analytics_CO/agent/graph_simple.py:66 | an all-whitespace query has no words |
| Text.WordsSkipSpace | retail_analytics_CO/agent/graph_simple.py:66 | leading whitespace does not change the words |
| Text.WordsSpaced | retail_analytics_CO/agent/graph_simple.py:66 | for any words and any whitespace around them, non-empty between two words, `split()` returns exactly those words |
| Text.WordsGaps | retail_analytics_CO/agent/graph_simple.py:66 | every text is its `split()` words with whitespace gaps around them, non-empty between two words; with `Text.WordsSpaced`, the words are exactly the maximal non-whitespace runs |
| Text.RemoveAllAbsent | retail_analytics_CO/agent/graph_simple.py:52 | `replace('.txt', '')` leaves a name without ".txt" unchanged |
| Text.RemoveTxtSuffix | retail_analytics_CO/agent/graph_simple.py:52 | `replace('.txt', '')` turns `stem + ".txt"` back into `stem` when the stem has no ".txt" |
| Text.ParseNatToString | retail_analytics_CO/agent/graph_simple.py:53 | the decimal rendering of the chunk ordinal parses back to the ordinal |
| Text.IntToString | retail_analytics_CO/agent/Tools/sqlite_tool.py:87 | `str(limit)` is a sign and digits that parse back to the limit |
| Text.IntToStringInjective | retail_analytics_CO/agent/Tools/sqlite_tool.py:87 | different limits render differently |
| Paragraphs.MatchLength | retail_analytics_CO/agent/graph_simple.py:46 | the separator matched at a position is the longest `\n\s*\n` or `#+ ` match starting there, or none |
| Paragraphs.Scan | retail_analytics_CO/agent/graph_simple.py:46 | the scan from a position yields pieces and separators that rebuild the rest of the text, with no separator inside a piece |
| Paragraphs.ScanLeftmostLongest | retail_analytics_CO/agent/graph_simple.py:46 | the scan cuts each piece at the leftmost position where a separator starts and takes the longest separator there |
| Paragraphs.LeftmostLongestUnique | retail_analytics_CO/agent/graph_simple.py:46 | a text has only one leftmost-longest split |
| Paragraphs.SplitText | retail_analytics_CO/agent/Rag/retrieval.py:42 | `re.split` yields at least one piece; pieces and matched separators interleave back into the text; the split is the leftmost-longest one |
| Paragraphs.SplitTextUnique | retail_analytics_CO/agent/Rag/retrieval.py:42 | any leftmost-longest split of the text has exactly the pieces `re.split` returns |
| Paragraphs.BlankRunIsOneSeparator | retail_analytics_CO/agent/graph_simple.py:46 | `re.split` of `a\n\n\nb` is `['a', 'b']`: a run of three newlines is one separator |
| Corpus.Eligible | retail_analytics_CO/agent/graph_simple.py:38 | no contract; see `GraphRetriever.LoadDocuments` and `RagRetriever.LoadDocuments` |
| Corpus.SourceName | retail_analytics_CO/agent/graph_simple.py:52 | no contract; see `Text.RemoveTxtSuffix` and `Text.RemoveAllAbsent` |
| Corpus.ChunkId | retail_analytics_CO/agent/graph_simple.py:53 | no contract; see `Corpus.ChunkIdInjective` |
| Corpus.ChunkIdInjective | retail_analytics_CO/agent/graph_simple.py:53 | within one source, different ordinals give different chunk ids |
| Corpus.ChunkParagraphs | retail_analytics_CO/agent/graph_simple.py:48-55 | each record has the file's source and non-empty, stripped content; there are at most as many records as paragraphs |
| Corpus.KeptIndices | retail_analytics_CO/agent/graph_simple.py:48-49 | the kept positions are strictly increasing and are exactly the non-blank paragraphs |
| Corpus.ChunkParagraphsKept | retail_analytics_CO/agent/graph_simple.py:48-55 | the records are the non-blank paragraphs, stripped, in order, each numbered by its raw position |
| Corpus.ChunkParagraphsConsecutive | retail_analytics_CO/agent/Rag/retrieval.py:27-34 | when every paragraph is stripped and non-blank, all are kept and numbered 0 to k-1 |
| Corpus.LoadAppends | retail_analytics_CO/agent/graph_simple.py:40-55 | loading appends the folder's records after whatever the index held |
| Corpus.LoadValid | retail_analytics_CO/agent/graph_simple.py:50-55 | loading keeps `chunks` and `chunk_info` equally long with `chunk_info[i].content == chunks[i]`, and keeps the old chunks as a prefix |
| Corpus.Load | retail_analytics_CO/agent/graph_simple.py:40-55 | no contract; see `Corpus.LoadAppends` and `Corpus.LoadValid` |
| Corpus.FileContribution | retail_analytics_CO/agent/graph_simple.py:38-57 | no contract; see `Corpus.LoadAppends` and `GraphRetriever.LoadDocuments` |
| Corpus.DoubleLoad | retail_analytics_CO/agent/graph_simple.py:29-30 | loading the same folder twice doubles both lists |
| Ranking.QueryWords | retail_analytics_CO/agent/graph_simple.py:66 | no contract; see `Ranking.ScoreShortWords` and `Ranking.SearchIndex` |
| Ranking.Scores | retail_analytics_CO/agent/graph_simple.py:69-75 | one score per chunk, none above the number of query words; see `Ranking.Score` and `Ranking.SearchIndex` |
| Ranking.Score | retail_analytics_CO/agent/graph_simple.py:71-75 | a score never exceeds the number of query words |
| Ranking.ScoreAppend | retail_analytics_CO/agent/graph_simple.py:73-75 | the score of a concatenated query is the sum of the parts' scores |
| Ranking.ScoreRepeated | retail_analytics_CO/agent/graph_simple.py:73-75 | a repeated query word counts each time |
| Ranking.ScoreShortWords | retail_analytics_CO/agent/graph_simple.py:74 | words of at most two characters never score |
| Ranking.Candidates | retail_analytics_CO/agent/graph_simple.py:77-81 | the unsorted results are exactly the positions scoring at least 1, in load order |
| Ranking.Sort | retail_analytics_CO/agent/graph_simple.py:83 | the sort is a permutation ordered by descending score, ties in load order |
| Ranking.Rank | retail_analytics_CO/agent/graph_simple.py:77-83 | the ranking holds exactly the scoring positions, ordered by descending score then load order |
| Ranking.Take | retail_analytics_CO/agent/graph_simple.py:84 | no contract; see `Ranking.Top` and `Ranking.PrefixRanksFirst` |
| Ranking.PrefixRanksFirst | retail_analytics_CO/agent/graph_simple.py:83-84 | every ranked element cut off by the slice ranks below every element kept |
| Ranking.Top | retail_analytics_CO/agent/graph_simple.py:83-84 | the sorted, sliced positions are ranked and score at least 1; there are `min(top_k, #scoring)` of them, or `max(#scoring + top_k, 0)` for a negative `top_k`; any left-out scoring position ranks below all returned ones |
| Ranking.RankedPositions | retail_analytics_CO/agent/graph_simple.py:69-84 | the returned positions are ranked and score at least 1; there are `min(top_k, #scoring)` of them, or `max(#scoring + top_k, 0)` for a negative `top_k`; any left-out scoring chunk ranks below all returned ones |
| Ranking.SearchIndex | retail_analytics_CO/agent/Rag/retrieval.py:53-70 | at most `top_k` hits, each scoring at least 1, scores non-increasing, equal scores in load order, each hit the record of a ranked position with its score |
| Ranking.ShortQueryFindsNothing | retail_analytics_CO/agent/Rag/retrieval.py:58-59 | a query made only of words of at most two characters finds nothing |
| Ranking.LoadIfEmpty | retail_analytics_CO/agent/graph_simple.py:63-64 | the folder is loaded exactly when the index is empty, and the index stays valid |
| Ranking.LazySearch | retail_analytics_CO/agent/graph_simple.py:61-84 | the folder is loaded exactly when the index is empty; the hits are the ranked search of the resulting index |
| Ranking.LoadsOnce | retail_analytics_CO/agent/Rag/retrieval.py:47-48 | once a search has loaded something, later searches do not load again |
| GraphRetriever.FileChunks | retail_analytics_CO/agent/graph_simple.py:46-55 | no contract; see `GraphRetriever.FileChunkIds` |
| GraphRetriever.FileChunkIds | retail_analytics_CO/agent/graph_simple.py:46-55 | a file's ids are its non-blank split pieces' raw positions: increasing, covering every non-blank piece |
| GraphRetriever.HeadingFirstIsChunkOne | retail_analytics_CO/agent/graph_simple.py:46-53 | `notes.txt` holding `# Hi` gives the single record `notes::chunk1` with content `Hi` |
| GraphRetriever.SplitOfHeading | retail_analytics_CO/agent/graph_simple.py:46 | `re.split` of `# Hi` is `['', 'Hi']` |
| GraphRetriever.LoadDocuments | retail_analytics_CO/agent/graph_simple.py:32-59 | loading appends every eligible, readable file's records and keeps the index valid |
| GraphRetriever.LoadTwiceDoubles | retail_analytics_CO/agent/graph_simple.py:40-55 | a second load without clearing repeats every chunk |
| GraphRetriever.SimpleSearch | retail_analytics_CO/agent/graph_simple.py:61-84 | loads only when empty; the hits are the ranked search of the loaded index (at most `top_k`, all scoring at least 1, scores non-increasing, equal scores in load order) |
| RagRetriever.StripNonBlank | retail_analytics_CO/agent/Rag/retrieval.py:43 | the comprehension yields only non-empty, stripped strings |
| RagRetriever.StripNonBlankKept | retail_analytics_CO/agent/Rag/retrieval.py:43 | the comprehension keeps exactly the non-blank pieces, stripped, in order |
| RagRetriever.SplitIntoChunks | retail_analytics_CO/agent/Rag/retrieval.py:40-43 | `_split_into_chunks` yields non-empty stripped elements, which are the split's non-blank pieces in order |
| RagRetriever.FileChunks | retail_analytics_CO/agent/Rag/retrieval.py:25-34 | no contract; see `RagRetriever.FileChunksConsecutive` |
| RagRetriever.FileChunksConsecutive | retail_analytics_CO/agent/Rag/retrieval.py:25-34 | the `strip()` guard never rejects, and ids run `::chunk0` to `::chunk(k-1)` in split order |
| RagRetriever.SameChunksRenumbered | retail_analytics_CO/agent/Rag/retrieval.py:25-34 | both copies make the same records per file, except that this copy numbers record k as k and the agent's copy numbers it by its raw position, which is at least k |
| RagRetriever.SameContents | retail_analytics_CO/agent/Rag/retrieval.py:18-34 | over a folder, both copies load the same chunk texts |
| RagRetriever.LoadDocuments | retail_analytics_CO/agent/Rag/retrieval.py:11-38 | loading appends every eligible, readable file's records and keeps the index valid |
| RagRetriever.LoadTwiceDoubles | retail_analytics_CO/agent/Rag/retrieval.py:27-34 | a second load without clearing repeats every chunk |
| RagRetriever.Search | retail_analytics_CO/agent/Rag/retrieval.py:45-70 | loads only when empty; the hits are the ranked search of the loaded index (at most `top_k`, all scoring at least 1, scores non-increasing, equal scores in load order) |
| RagRetriever.SameHitsAsAgentCopy | retail_analytics_CO/agent/Rag/retrieval.py:45-70 | from a fresh start, both copies return the same texts with the same scores in the same order |
| SqlTool.Quote | retail_analytics_CO/agent/Tools/sqlite_tool.py:22-23 | no contract; see `SqlTool.QuoteChangesIff` and `SqlTool.QuoteInjective` |
| SqlTool.QuoteChangesIff | retail_analytics_CO/agent/Tools/sqlite_tool.py:22-25 | a table name is changed by quoting exactly when it holds a space or a hyphen |
| SqlTool.QuoteInjective | retail_analytics_CO/agent/Tools/sqlite_tool.py:84-85 | different table names never quote to the same text |
| SqlTool.PragmaStatement | retail_analytics_CO/agent/Tools/sqlite_tool.py:28 | no contract; see `SqlTool.PragmaStatementInjective` |
| SqlTool.PragmaStatementInjective | retail_analytics_CO/agent/Tools/sqlite_tool.py:22-28 | different table names are introspected by different `PRAGMA table_info` statements |
| SqlTool.ColumnsOrEmpty | retail_analytics_CO/agent/Tools/sqlite_tool.py:20-33 | no contract; see `SqlTool.FailingTableIsolated` |
| SqlTool.SchemaOf | retail_analytics_CO/agent/Tools/sqlite_tool.py:19-33 | one entry per catalog table under its unquoted name; the introspected columns, or `[]` when introspection failed |
| SqlTool.GetSchema | retail_analytics_CO/agent/Tools/sqlite_tool.py:9-36 | fails exactly when the catalog read fails, with its message; otherwise the keys are the catalog's tables, with columns or `[]` |
| SqlTool.FailingTableIsolated | retail_analytics_CO/agent/Tools/sqlite_tool.py:31-33 | a table whose introspection fails gets `[]`, and the other tables still get their columns |
| SqlTool.RunQuery | retail_analytics_CO/agent/Tools/sqlite_tool.py:49-79 | never raises; success exactly when execution succeeds; on success the rows and columns fetched and `row_count == len(rows)`, `error` None; on failure empty lists, count 0 and the message |
| SqlTool.SampleQuery | retail_analytics_CO/agent/Tools/sqlite_tool.py:84-87 | no contract; see `SqlTool.SampleQueryInjective` |
| SqlTool.GetSampleData | retail_analytics_CO/agent/Tools/sqlite_tool.py:81-88 | the envelope of executing exactly the sample statement: success when it executes, with its columns and rows, otherwise its error message |
| SqlTool.SampleQueryInjective | retail_analytics_CO/agent/Tools/sqlite_tool.py:87 | the sample query determines its table name and limit |
| Rules.FirstMatch | retail_analytics_CO/agent/graph_simple.py:157-166 | an if/elif chain takes the first cue that holds, or the `else` when none does |
| Rules.FirstMatchUnique | retail_analytics_CO/agent/graph_simple.py:157-166 | the chain's branch is determined: any branch whose cue holds and whose predecessors all fail is the one taken |
| Rules.BeverageRevenueCue | retail_analytics_CO/agent/graph_simple.py:216 | the "beverages" test of the fifth template is implied by its "summer beverages 1997" test |
| Rules.ReturnPolicyMentionsPolicy | retail_analytics_CO/agent/graph_simple.py:174 | a question under the return-policy template mentions "policy" |
| Rules.TemplateCuesSpelledOut | retail_analytics_CO/agent/graph_simple.py:174-229 | the six template cues are the conditions of the source's chain |
| Router.Predict | retail_analytics_CO/agent/graph_simple.py:152-166 | the route is the first-match table's outcome: documents cue, else database cue, else both |
| Router.RagIff | retail_analytics_CO/agent/graph_simple.py:157-158 | `rag` exactly when "policy", "definition" or "what is" occurs |
| Router.SqlIff | retail_analytics_CO/agent/graph_simple.py:161-162 | `sql` exactly when the top-products phrase occurs and no documents cue does |
| Router.PolicyGoesToDocuments | retail_analytics_CO/agent/graph_simple.py:157-162 | the documents cues win over the database cue |
| SqlGenerator.Predict | retail_analytics_CO/agent/graph_simple.py:169-247 | no contract; see `SqlGenerator.PredictIsTable`, `SqlGenerator.IgnoresSchema` and `SqlGenerator.EmptyIffReturnPolicy` |
| SqlGenerator.PredictIsTable | retail_analytics_CO/agent/graph_simple.py:169-247 | the chain returns the first-matching template's statement and explanation |
| SqlGenerator.IgnoresSchema | retail_analytics_CO/agent/graph_simple.py:169 | the result never depends on the schema |
| SqlGenerator.EmptyIffReturnPolicy | retail_analytics_CO/agent/graph_simple.py:173-175 | the statement is empty exactly for the return-policy template |
| SqlGenerator.UnmatchedGetsFallback | retail_analytics_CO/agent/graph_simple.py:243-247 | a question matching no template gets `SELECT 'No specific query generated' as result` |
| AnswerSynthesizer.Predict | retail_analytics_CO/agent/graph_simple.py:249-298 | no contract; see `AnswerSynthesizer.PredictIsTable`, `AnswerSynthesizer.IgnoresContext` and `AnswerSynthesizer.CitationsNonEmpty` |
| AnswerSynthesizer.PredictIsTable | retail_analytics_CO/agent/graph_simple.py:249-298 | the chain returns the first-matching template's answer, explanation and citations, testing the generator's templates in the same order |
| AnswerSynthesizer.IgnoresContext | retail_analytics_CO/agent/graph_simple.py:249 | the result depends only on the question, not on the SQL results, document context or format hint |
| AnswerSynthesizer.CitationsNonEmpty | retail_analytics_CO/agent/graph_simple.py:289-292 | citations are never empty; an unmatched question cites `general_knowledge` |
| Agent.Run | retail_analytics_CO/agent/graph_simple.py:324-393 | the run fails exactly when it reads the schema and the catalog read fails; the retriever state changes only on the searching routes; the index stays valid |
| Agent.GenerateSql | retail_analytics_CO/agent/graph_simple.py:346-352 | off the `sql`/`hybrid` routes the statement stays empty; on them the catalog read's failure escapes, otherwise the statement is the question's template statement whatever the schema |
| Agent.Execute | retail_analytics_CO/agent/graph_simple.py:354-365 | a statement is run exactly when it is non-empty, and its result is the `run_query` envelope of that statement; confidence 0.9 on success, 0.3 on failure, unset without a statement |
| Agent.DatabaseRouteHasStatement | retail_analytics_CO/agent/graph_simple.py:347-352 | on the `sql` and `hybrid` routes the generated statement is never empty |
| Agent.RunState | retail_analytics_CO/agent/graph_simple.py:340-393 | search exactly on `rag`/`hybrid`; a statement exactly on `sql`/`hybrid`; execution exactly for a statement; confidence 0.9, 0.3 or unset by outcome; the answer is the question's template entry; citations non-empty; `errors == []` |
| Agent.ReplyOf | retail_analytics_CO/agent/graph_simple.py:385-393 | no contract; see `Agent.DocumentsRouteSkipsDatabase` and `Agent.ConfidenceValues` |
| Agent.DocumentsRouteSkipsDatabase | retail_analytics_CO/agent/graph_simple.py:340-365 | on the `rag` route the run succeeds whatever the database does, with `sql == ""` and confidence 0.0 |
| Agent.AnswerDependsOnlyOnQuestion | retail_analytics_CO/agent/graph_simple.py:367-381 | two successful runs of one question give the same answer, explanation and citations, whatever the documents, database or earlier questions |
| Agent.ConfidenceValues | retail_analytics_CO/agent/graph_simple.py:360-365 | the reported confidence is 0.0, 0.3 or 0.9 |

## Left out

- File-system access. A folder is a sequence of (name, content-or-unreadable) entries in `os.listdir` order. The content is what `f.read()` returns in text mode, after universal-newline translation, so the splitter never sees `"\r\n"`. Opening or decoding a file fails as a whole, so the per-file `except` is an unreadable entry.
- The missing-folder guard of `graph_simple.py` (lines 34-36) and the unguarded `os.listdir` of `retrieval.py` (line 16). The folder is always present.
- The missing-database guard of `graph_simple.py` (lines 93-95). On a missing file, `sqlite3.connect` would create an empty database whose catalog is empty. So with the catalog oracle answering `[]`, the model gives the same `{}`.
- SQLite itself. The catalog, `PRAGMA table_info` and statement execution are oracle fields of `SqlTool.Database`. Any exception in the `try` of `run_query` is the oracle's failure, including a statement with no result description. The SQL text of the templates is opaque and its meaning is not checked.
- `get_views` (`sqlite_tool.py` lines 38-47). Nothing in the pipeline calls it.
- Python's `str(...)` rendering of the schema, rows and hits. These are functions in `Agent.Renderer`. The generator and synthesizer never read the rendered text.
- `str.lower` beyond ASCII and Latin-1 capitals. Characters outside those ranges are left unchanged.
- The confidence as floating point. It is a three-valued `Agent.Confidence` with the reals 0.0, 0.3 and 0.9.
- `HybridAgentState.attempts`, which is never changed, and every `print`.
- `run_agent_hybrid.py` (the command-line batch runner), `agent/dspy_signatures.py` (declarations for an external LLM library), `create_views.py` (a database bootstrap) and `test.py` (a file-system smoke check). They are not part of this model.
