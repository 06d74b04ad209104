# Call transcript analysis: a Dafny model

This project models the core of a call-transcript analysis service. The
service has two layers.

- The keyword classifier `CallAnalysisAgent` labels a transcript with an
  intent and a sentiment. It counts trigger phrases in the lower-cased
  text, builds an analysis record from the two results, and saves the
  record to a store.
- The tool layer of the analysis server declares eight tools. The model covers four of them:
  - fetch a transcript;
  - fetch a saved analysis;
  - analyse one transcript;
  - analyse every transcript of a customer.

Modules:

- `Text`: the string primitives.
  - ASCII lower-casing.
  - `kw in text`.
  - Python's `str.count`, which counts non-overlapping matches scanning left to right. The empty keyword counts once per position.
  - `f"{n}"` for integers.
- `Ranking`: two list operations.
  - `max(d, key=d.get)` over an insertion-ordered dictionary, which is the *first* key with the largest value.
  - `sum`, with the bounds the confidences need.
- `Persistence`: an in-memory stand-in for `TranscriptDatabase`.
  - It is a class holding both tables, plus a fault state standing for SQLite exceptions.
  - It also keeps a ghost log of every save call.
  - Analysis ids are handed out 1, 2, ... (AUTOINCREMENT).
- `Agent`: the classifier.
  - The two keyword tables, in declaration order.
  - `_extract_intent` and `_analyze_sentiment`, each written twice: as a method with the source's nested loops and as the function it is proved to compute.
  - `analyze_transcript` and `analyze_and_save`.
- `AgentServer`: the tools `get_transcript`, `get_analysis_result`, `analyze_transcript` and `batch_analyze_customer`. The batch loop is specified against `AnalysesOf`, `EntriesOf` and `RequestsOf`: the analyses, the listed entries and the save calls of the fetched rows, in fetch order.

Two points of the code shape the model:

- The server's `analyze_transcript` catches only the error dictionary. A fetch that finds no row returns `None`, and the code then indexes it and fails. The model therefore *requires* a row or a store error.
- Keyword tables are ordered lists, not sets. The order of `keywords_found` and the tie-breaking both depend on it.

## Model

| member | source | states |
|---|---|---|
| Text.Lower | agents/agent.py:59 | lower-casing keeps the length, maps A-Z to a-z character by character, and leaves no upper-case letter |
| Text.LowerIdempotent | agents/agent.py:96 | lower-casing an already lower-cased text changes nothing |
| Text.Contains | agents/agent.py:69 | `kw in text`: some position of the text starts an occurrence of the keyword |
| Text.CountFrom | agents/agent.py:70 | the left-to-right scan of `str.count`: a match at the position is counted and the scan resumes after it, otherwise it moves one character on; its properties are `CountFromPositiveIff` and `CountFromBound` |
| Text.Count | agents/agent.py:70 | `text.count(kw)`: the scan from position 0, and `len(text) + 1` for the empty keyword; related to `in` by `CountPositiveIffContains` |
| Text.IntToString | agents/database.py:100 | `f"{n}"`: the decimal digits of the id, with a leading `-` when it is negative |
| Text.CountPositiveIffContains | agents/agent.py:69-70 | `text.count(kw) > 0` exactly when `kw in text`, so the `in` guard never changes a score |
| Text.CountFromPositiveIff | agents/agent.py:70 | the scan from position i counts something exactly when the keyword occurs at some position at or after i |
| Text.CountFromBound | agents/agent.py:70 | non-overlapping matches each use up the keyword's length, so count times length is at most the text length |
| Ranking.FirstMax | agents/agent.py:80 | the chosen index holds a largest value, and every earlier value is strictly smaller (the first maximum wins ties) |
| Ranking.Sum | agents/agent.py:110 | `sum(...)` of the bucket counts, folded from the left; its properties are the lemmas below |
| Ranking.ElementAtMostSum | agents/agent.py:110 | no count exceeds the total |
| Ranking.SumAtMostMaxTimesLength | agents/agent.py:110 | the total is at most the number of buckets times the largest count |
| Ranking.SumZeroIff | agents/agent.py:110-112 | the total is 0 exactly when every count is 0 |
| Ranking.MaxBounds | agents/agent.py:116-117 | the largest count is between total/n and the total |
| Ranking.RatioBounds | agents/agent.py:117 | a share c/t with c ≤ t ≤ n·c lies in [1/n, 1] |
| Ranking.FirstMaxShareOfThree | agents/agent.py:110-117 | among three counts with a positive total, the first maximum's share of the total lies between 1/3 and 1 |
| Ranking.SharesSumToOne | agents/agent.py:117 | three shares of a positive total add up to 1 |
| Agent.Intents | agents/agent.py:14-22 | `INTENTS`: the seven intent categories with their trigger phrases, in declaration order; their labels are distinct by `TablesHaveDistinctLabels` and their phrases by `TablesListKeywordsOnce` |
| Agent.SentimentKeywords | agents/agent.py:24-28 | `SENTIMENT_KEYWORDS`: the positive, negative and neutral phrase lists, in declaration order, which is also the order of the `sentiment_scores` buckets |
| Agent.TablesHaveDistinctLabels | agents/agent.py:14-28 | both tables have distinct labels, and no intent label is `general_inquiry` |
| Agent.TablesListKeywordsOnce | agents/agent.py:14-28 | no category of either table lists a keyword twice, so by `FoundNoDup` no found list repeats a keyword |
| Agent.Score | agents/agent.py:65-71 | a category's score: the sum of `str.count` over its keywords (the `in` guard adds nothing, by `CountPositiveIffContains`); related to occurrence by `ScorePositiveIff` |
| Agent.FoundKeywords | agents/agent.py:66-72 | `found_keywords`: the category's keywords that occur, in list order; specified by `FoundIff`, `FoundInOrder` and `FoundNoDup` |
| Agent.FoundIff | agents/agent.py:66-72 | a keyword is listed as found exactly when it is in the category's list and occurs in the text |
| Agent.FoundInOrder | agents/agent.py:66-72 | the found list is the keyword list read at the positions whose keyword occurs, in strictly increasing order: list order is kept and each occurring position gives exactly one entry |
| Agent.FoundNoDup | agents/agent.py:66-72 | a keyword list without repeats gives a found list without repeats, so with the tables' lists each found keyword is listed once |
| Agent.ScorePositiveIff | agents/agent.py:65-74 | a category scores above 0 exactly when one of its keywords occurs |
| Agent.Scored | agents/agent.py:64-76 | `intent_scores` and `keywords_found` together: the table's categories that score above 0, in table order, each with its score and found list; specified by `ScoredSpec`, `ScoredEmptyIff`, `IndicatorsIff` and `ScoredDistinct` |
| Agent.IntentConfidence | agents/agent.py:81 | `min(score / 10, 1.0)`; its range is stated by `IntentConfidenceMonotone` |
| Agent.IntentFromScored | agents/agent.py:79-91 | the result for a score dictionary: `general_inquiry` with 0.3 when it is empty, otherwise its first maximum with that category's confidence and found list |
| Agent.IntentOf | agents/agent.py:57-91 | what `_extract_intent` returns; the loops compute it (`ExtractIntent`) and it is characterised by `IntentFallback` and `IntentWinner` |
| Agent.TableScores | agents/agent.py:97-107 | every category's score, zero or not, in table order: the `sentiment_scores` buckets after the loops; it has one entry per category and entry i is category i's score |
| Agent.Indicators | agents/agent.py:60-75 | `intent_scores` in insertion order: the (label, score) pairs of the scoring categories; characterised by `IndicatorsIff` |
| Agent.FoundMap | agents/agent.py:61-89 | `keywords_found`: each scoring category's label mapped to its found list; looked up by `FoundMapAt` and `FoundMapLookup` |
| Agent.KeywordStep | agents/agent.py:68-72 | one inner-loop step adds the keyword's count and lists it exactly when it occurs |
| Agent.CategoryStep | agents/agent.py:74-76 | one outer-loop step adds the category to `intent_scores` and `keywords_found` exactly when its score is above 0 |
| Agent.ExtractIntent | agents/agent.py:57-91 | the source's nested loops over the intent table compute `IntentOf`: same category, confidence, found list and score dictionary |
| Agent.ScoredSpec | agents/agent.py:74-76 | every listed category scores above 0 and comes from the table, and every category that scores is listed |
| Agent.ScoredEmptyIff | agents/agent.py:79 | the score dictionary is empty exactly when every category scores 0 |
| Agent.ScoredEmptyIffNoKeyword | agents/agent.py:79 | the score dictionary is empty exactly when no intent keyword occurs |
| Agent.IndicatorsIff | agents/agent.py:74-75 | a (label, n) pair is in `intent_scores` exactly when that table category scores n and n > 0 |
| Agent.ScoredDistinct | agents/agent.py:75-76 | the score dictionary never lists a label twice |
| Agent.FoundMapAt | agents/agent.py:76 | in a list with distinct labels, each label maps to its own found list in `keywords_found` |
| Agent.FoundMapLookup | agents/agent.py:76-89 | `keywords_found.get(primary)` is the winning category's own found list |
| Agent.FirstPositiveIsFirstMax | agents/agent.py:73-80 | keeping only the entries that score above 0 and taking the first maximum of what is left picks the same entry as taking the first maximum of every score |
| Ranking.FirstMaxSnoc | agents/agent.py:80 | appending a value moves the first maximum to it exactly when it is strictly larger than the current maximum |
| Agent.FirstScoredIsFirstTableMax | agents/agent.py:64-80 | the first maximum of the filtered dictionary is the table's first category with the maximum score |
| Agent.IntentFallback | agents/agent.py:79-91 | the intent is `general_inquiry` exactly when no intent keyword occurs, and then the result is (`general_inquiry`, 0.3, [], {}) |
| Agent.IntentWinner | agents/agent.py:79-91 | when a keyword occurs, the intent is the first table category with the maximum score, with confidence `min(score/10, 1)` and its own found list; `indicators` holds exactly the categories that scored, with their scores |
| Agent.IntentConfidenceRange | agents/agent.py:81-84 | the intent confidence lies in [0.1, 1], the fallback's 0.3 included |
| Agent.IntentConfidenceMonotone | agents/agent.py:81 | `min(score/10, 1)` does not decrease with the score, equals 1 exactly from 10 on, and is at least 0.1 for a positive score |
| Agent.AnalyzeSentiment | agents/agent.py:94-119 | the source's loops over three zero-initialised buckets compute `SentimentOf` |
| Agent.SentimentOf | agents/agent.py:94-119 | what `_analyze_sentiment` returns; the loops compute it (`AnalyzeSentiment`) and it is characterised by `SentimentFallback` and `SentimentDominant` |
| Agent.SentimentTotalZeroIff | agents/agent.py:104-112 | the total count is 0 exactly when no sentiment keyword occurs |
| Agent.SentimentFallback | agents/agent.py:112-113 | with no sentiment keyword the result is (`neutral`, 0.5) |
| Agent.SentimentDominant | agents/agent.py:115-119 | otherwise the label is the first bucket (positive, negative, neutral) with the largest count, the confidence is that count over the total, and it lies in [1/3, 1] |
| Agent.SentimentLabelIsBucket | agents/agent.py:97-119 | the label is always positive, negative or neutral |
| Agent.SentimentProportionsSumToOne | agents/agent.py:110-117 | when a keyword occurs, the three bucket proportions add up to 1 |
| Agent.AnalyzeTranscript | agents/agent.py:31-54 | `analyze_transcript`: the record built from both classifiers; stated field by field by `AnalysisRecord` |
| Agent.AnalysisRecord | agents/agent.py:41-54 | the record copies category, label and both confidences unchanged, has their mean as `overall_confidence`, and puts the intent score dictionary under `sentiment_indicators` |
| Agent.SentimentConfidenceRange | agents/agent.py:110-119 | the sentiment confidence lies in [1/3, 1] in every case |
| Agent.OverallConfidenceRange | agents/agent.py:49 | the overall confidence lies between the two component confidences, and in [13/60, 1] |
| Agent.AnalysisIgnoresCase | agents/agent.py:59-96 | the analysis of a text equals the analysis of its lower-cased form |
| Agent.SaveRequestFor | agents/agent.py:138-146 | the arguments of the save call: the transcript and customer ids, the record's intent, sentiment and overall confidence, and the record itself as `raw_analysis` |
| Agent.AnalyzeAndSave | agents/agent.py:122-151 | it issues exactly one save, carrying the record's intent, sentiment and overall confidence; it returns the record whatever the save reports; the table grows by one row exactly when writes succeed |
| Persistence.Database.TranscriptById | agents/database.py:17-36 | a store error gives that error; otherwise the row with the id if one exists, else nothing |
| Persistence.Database.TranscriptsOfCustomer | agents/database.py:57-73 | a store error gives the error list; otherwise exactly the customer's rows |
| Persistence.Database.AnalysisById | agents/database.py:106-125 | a store error gives that error message; otherwise the analysis row with the id if one exists, else nothing |
| Persistence.Database.SaveAnalysisResult | agents/database.py:76-103 | it logs the call; on success it appends one row numbered after the last and reports that id and the transcript message, and the row can then be fetched by that id; a write fault reports failure and changes no table |
| Persistence.SaveOutcome | agents/database.py:85-103 | the reply of one insert: the error message when writes fail, otherwise success with the next id and "Analysis saved for transcript N"; the method is tied to it by `SaveAnalysisResult` |
| Persistence.TableAfterSave | agents/database.py:88-93 | the table after one insert: unchanged when writes fail, otherwise one more row numbered after the others |
| Persistence.Inserted | agents/database.py:88-94 | the table after a run of inserts; row by row it is given by `InsertedAt` |
| Persistence.FindTranscript | agents/database.py:24-34 | the lookup finds a row with the id exactly when one exists |
| Persistence.FindAnalysis | agents/database.py:113-123 | the lookup finds an analysis row with the id exactly when one exists |
| Persistence.OfCustomer | agents/database.py:64-71 | the result holds exactly the table's rows for that customer |
| Persistence.InsertedAt | agents/database.py:89-94 | after a run of inserts, old rows stay in place and insert k becomes the row numbered after the old rows and the earlier inserts |
| Persistence.NumberedAt | agents/database.py:94 | in a numbered table, row k carries id k + 1 |
| Persistence.FindNumbered | agents/database.py:113-122 | in a numbered table, fetching id k + 1 finds row k |
| Persistence.FindAnalysisUnique | agents/database.py:113-122 | when ids are distinct, fetching a row's id finds that row |
| AgentServer.GetTranscript | agents/agent_server.py:20-34 | a missing transcript gives the error "Transcript N not found"; a store error is passed on; otherwise the stored row is returned unchanged |
| AgentServer.GetAnalysisResult | agents/agent_server.py:99-112 | a missing analysis gives the error "Analysis N not found"; a store error is passed on; otherwise the stored row is returned unchanged |
| AgentServer.AnalyzeTranscript | agents/agent_server.py:63-95 | a store error gives "Could not fetch transcript N" with no save; otherwise one save of the analysis of the stored text, and a reply echoing both ids, the analysis and the save's success flag; a successful save can be fetched back with the reply's intent, sentiment and confidence |
| AgentServer.EntryOf | agents/agent_server.py:153-158 | the dictionary appended to `results`: the transcript id with the analysis's intent, sentiment and overall confidence |
| AgentServer.AnalysesOf | agents/agent_server.py:147-152 | the analyses of the fetched rows, in fetch order; row by row by `AnalysesOfAt` |
| AgentServer.EntriesOf | agents/agent_server.py:153-158 | the `results` list for the rows and their analyses; row by row by `EntriesOfAt` |
| AgentServer.RequestsOf | agents/agent_server.py:148-152 | the save calls the loop issues, in order; row by row by `RequestsOfAt` |
| AgentServer.AnalysesOfAt | agents/agent_server.py:147-152 | analysis i is the classifier's result on the text of fetched row i |
| AgentServer.EntriesOfAt | agents/agent_server.py:153-158 | entry i has row i's id and the intent, sentiment and overall confidence of row i's analysis |
| AgentServer.RequestsOfAt | agents/agent_server.py:148-152 | save call i carries row i's id, the caller's customer id and row i's analysis |
| AgentServer.AnalyzeNext | agents/agent_server.py:147-158 | one loop round: row i is analysed and saved once, and its entry is appended |
| AgentServer.AnalyzeEach | agents/agent_server.py:146-158 | the entries are those of the rows in fetch order; the save log gains exactly one call per row, in order; the table gains the matching rows unless writes fail |
| AgentServer.BatchAnalyzeCustomer | agents/agent_server.py:130-164 | a store error gives "Could not fetch customer transcripts" with no save; otherwise the customer id is echoed, `transcripts_analyzed` equals the number of fetched rows and of entries (0 for an empty fetch), and the entries and saves are as in `AnalyzeEach` |

## Left out

- SQLite itself: connections, SQL text and the exception-to-dictionary wrapping. A fault field stands for "every read (or write) raises with this message".
- `ORDER BY call_date DESC` in `get_transcript_by_customer`: the model keeps `call_date` as a string but does not sort by it, so a customer's rows come in table order. The batch properties hold for whatever order the fetch returns.
- The column list of `get_transcript_by_customer`: the query selects only `id`, `customer_id`, `customer_name`, `transcript` and `call_date`, but `OfCustomer` returns whole rows, `duration_seconds` and `phone_number` included. The batch reads only `id` and `transcript`.
- `analysis_date`, which the store stamps on each saved analysis.
- `json.dumps(analysis)`: the save call carries the analysis record itself as `raw_analysis`.
- Python's full Unicode `lower()`: ASCII A-Z only.
- Floating point: confidences are exact reals, so nothing is rounded.
- AgentServer.AnalyzeTranscript: requires a transcript that exists (or a store error). On a missing row the source indexes `None` and fails, and the model does not represent that crash.
- The other tools and plumbing: `list_all_transcripts`, `get_customer_transcripts`, `get_customer_analysis_history`, the HTTP resource endpoints (they only forward), `server_health`, the server framework, `setup_database.py`, `client.py`, `server.py` and the test harness.
- The concrete scenarios of `test_agent.py`, for example "I want to cancel my subscription immediately." being a cancellation, are not proved. An intent scenario needs the count of each of the 39 intent phrases in a literal text, and a sentiment scenario each of the 21 sentiment phrases. The verifier does not evaluate such a count unaided: even `Count("i want to cancel my subscription immediately.", "cancel") == 1` needs its own lemma walking the scan, and every scenario would need one for each phrase.
