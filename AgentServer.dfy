/**
 * The tool layer of the analysis server (agents/agent_server.py): fetching
 * a transcript or a saved analysis, analysing one transcript, and analysing
 * every transcript of a customer. The store is the in-memory `Database`;
 * the tool-serving framework around these functions is not modelled.
 */
module AgentServer {
  import opened Text
  import opened Persistence
  import Agent

  /** A tool's reply: the value, or the dictionary `{"error": message}`. */
  datatype Reply<T> = Ok(value: T) | Error(error: string)

  /** The reply of the `analyze_transcript` tool. */
  datatype AnalyzeReply = AnalyzeReply(
    transcriptId: int,
    customerId: string,
    analysis: Agent.Analysis,
    savedToDatabase: bool)

  /** One entry of the `analyses` list of `batch_analyze_customer`. */
  datatype BatchEntry = BatchEntry(transcriptId: int, intent: string, sentiment: string, confidence: real)

  /** The reply of `batch_analyze_customer`. */
  datatype BatchReply = BatchReply(customerId: string, transcriptsAnalyzed: nat, analyses: seq<BatchEntry>)

  /**
   * `get_transcript`: the stored row with that id; a missing row becomes an
   * error naming the id, and a store error is passed on as it is.
   */
  function GetTranscript(db: Database<Agent.Analysis>, transcriptId: int): (r: Reply<TranscriptRow>)
    reads db
    ensures r.Ok? <==> db.readFault.None? && exists i :: 0 <= i < |db.transcripts| && db.transcripts[i].id == transcriptId
    ensures r.Ok? ==> r.value in db.transcripts && r.value.id == transcriptId
    ensures db.readFault.Some? ==> r == Error(db.readFault.value)
    ensures db.TranscriptById(transcriptId).Missing? ==>
      r == Error("Transcript " + IntToString(transcriptId) + " not found")
  {
    match db.TranscriptById(transcriptId)
    case Missing => Error("Transcript " + IntToString(transcriptId) + " not found")
    case Failed(e) => Error(e)
    case Found(row) => Ok(row)
  }

  /**
   * `get_analysis_result`: the stored analysis with that id; a missing row
   * becomes an error naming the id, and a store error is passed on.
   */
  function GetAnalysisResult(db: Database<Agent.Analysis>, analysisId: int): (r: Reply<AnalysisRow<Agent.Analysis>>)
    reads db
    ensures r.Ok? <==> db.readFault.None? && exists i :: 0 <= i < |db.analyses| && db.analyses[i].id == analysisId
    ensures r.Ok? ==> r.value in db.analyses && r.value.id == analysisId
    ensures db.readFault.Some? ==> r == Error(db.readFault.value)
    ensures db.AnalysisById(analysisId).Missing? ==>
      r == Error("Analysis " + IntToString(analysisId) + " not found")
  {
    match db.AnalysisById(analysisId)
    case Missing => Error("Analysis " + IntToString(analysisId) + " not found")
    case Failed(e) => Error(e)
    case Found(row) => Ok(row)
  }

  /**
   * `analyze_transcript`: a store error ends the call with an error and no
   * save; otherwise the transcript's text is analysed and saved once, and
   * the reply echoes both ids, the analysis, and whether the save succeeded.
   * A fetch that finds no row makes the source index `None` and fail, so
   * callers must name a transcript that exists or face a store error.
   */
  method AnalyzeTranscript(db: Database<Agent.Analysis>, transcriptId: int, customerId: string)
    returns (r: Reply<AnalyzeReply>)
    requires db.Valid()
    requires !db.TranscriptById(transcriptId).Missing?
    modifies db
    ensures db.Valid()
    ensures db.transcripts == old(db.transcripts)
    ensures db.readFault == old(db.readFault) && db.writeFault == old(db.writeFault)
    ensures old(db.readFault).Some? ==>
      && r == Error("Could not fetch transcript " + IntToString(transcriptId))
      && db.saveCalls == old(db.saveCalls) && db.analyses == old(db.analyses)
    ensures old(db.readFault).None? ==>
      var row := old(db.TranscriptById(transcriptId)).row;
      var a := Agent.AnalyzeTranscript(row.transcript);
      var req := Agent.SaveRequestFor(transcriptId, customerId, a);
      && r == Ok(AnalyzeReply(transcriptId, customerId, a, db.writeFault.None?))
      && db.saveCalls == old(db.saveCalls) + [req]
      && db.analyses == TableAfterSave(db.writeFault, old(db.analyses), req)
    ensures r.Ok? && r.value.savedToDatabase && db.readFault.None? ==>
      var saved := GetAnalysisResult(db, |old(db.analyses)| + 1);
      && saved.Ok?
      && saved.value.intent == r.value.analysis.intent
      && saved.value.sentiment == r.value.analysis.sentiment
      && saved.value.confidenceScore == r.value.analysis.overallConfidence
  {
    var transcriptData := db.TranscriptById(transcriptId);
    if transcriptData.Failed? {
      return Error("Could not fetch transcript " + IntToString(transcriptId));
    }
    var result := Agent.AnalyzeAndSave(db, transcriptId, customerId, transcriptData.row.transcript);
    r := Ok(AnalyzeReply(transcriptId, customerId, result.analysis, result.databaseSave.Saved?));
    if result.databaseSave.Saved? {
      FindNumbered(db.analyses, |old(db.analyses)|);
    }
  }

  /** The entry `batch_analyze_customer` lists for a transcript id and its analysis. */
  function EntryOf(transcriptId: int, a: Agent.Analysis): BatchEntry
  {
    BatchEntry(transcriptId, a.intent, a.sentiment, a.overallConfidence)
  }

  /** The analyses of the fetched transcripts, in fetch order. */
  function AnalysesOf(rows: seq<TranscriptRow>): (r: seq<Agent.Analysis>)
    ensures |r| == |rows|
  {
    if rows == [] then [] else AnalysesOf(rows[..|rows| - 1]) + [Agent.AnalyzeTranscript(rows[|rows| - 1].transcript)]
  }

  /** The entries listed for the rows, given the rows' analyses. */
  function EntriesOf(rows: seq<TranscriptRow>, analyses: seq<Agent.Analysis>): (r: seq<BatchEntry>)
    requires |analyses| == |rows|
    ensures |r| == |rows|
  {
    if rows == [] then []
    else EntriesOf(rows[..|rows| - 1], analyses[..|rows| - 1]) + [EntryOf(rows[|rows| - 1].id, analyses[|rows| - 1])]
  }

  /** The save calls issued for the rows on behalf of `customerId`, given the rows' analyses. */
  function RequestsOf(rows: seq<TranscriptRow>, customerId: string, analyses: seq<Agent.Analysis>)
    : (r: seq<SaveRequest<Agent.Analysis>>)
    requires |analyses| == |rows|
    ensures |r| == |rows|
  {
    if rows == [] then []
    else
      RequestsOf(rows[..|rows| - 1], customerId, analyses[..|rows| - 1])
        + [Agent.SaveRequestFor(rows[|rows| - 1].id, customerId, analyses[|rows| - 1])]
  }

  /** Analysis `i` is the classifier's result on the text of row `i`. */
  lemma {:induction false} AnalysesOfAt(rows: seq<TranscriptRow>, i: nat)
    requires i < |rows|
    ensures AnalysesOf(rows)[i] == Agent.AnalyzeTranscript(rows[i].transcript)
  {
    var init := rows[..|rows| - 1];
    if i < |init| {
      AnalysesOfAt(init, i);
      assert init[i] == rows[i];
      assert AnalysesOf(rows)[i] == AnalysesOf(init)[i];
    }
  }

  /** Entry `i` lists row `i`'s id with the intent, sentiment and overall confidence of its analysis. */
  lemma {:induction false} EntriesOfAt(rows: seq<TranscriptRow>, analyses: seq<Agent.Analysis>, i: nat)
    requires |analyses| == |rows| && i < |rows|
    ensures EntriesOf(rows, analyses)[i] == BatchEntry(rows[i].id, analyses[i].intent, analyses[i].sentiment, analyses[i].overallConfidence)
  {
    var n := |rows| - 1;
    if i < n {
      EntriesOfAt(rows[..n], analyses[..n], i);
    }
  }

  /** Save call `i` carries row `i`'s id, the caller's customer id, and row `i`'s analysis. */
  lemma {:induction false} RequestsOfAt(rows: seq<TranscriptRow>, customerId: string, analyses: seq<Agent.Analysis>, i: nat)
    requires |analyses| == |rows| && i < |rows|
    ensures RequestsOf(rows, customerId, analyses)[i] == Agent.SaveRequestFor(rows[i].id, customerId, analyses[i])
  {
    var n := |rows| - 1;
    if i < n {
      RequestsOfAt(rows[..n], customerId, analyses[..n], i);
    }
  }

  /** Listing one more row with its analysis appends its entry and its save call. */
  lemma ListSnoc(rows: seq<TranscriptRow>, i: nat, customerId: string, analyses: seq<Agent.Analysis>, a: Agent.Analysis)
    requires i < |rows| && |analyses| == i
    ensures EntriesOf(rows[..i + 1], analyses + [a]) == EntriesOf(rows[..i], analyses) + [EntryOf(rows[i].id, a)]
    ensures RequestsOf(rows[..i + 1], customerId, analyses + [a])
         == RequestsOf(rows[..i], customerId, analyses) + [Agent.SaveRequestFor(rows[i].id, customerId, a)]
  {
    assert rows[..i + 1][..i] == rows[..i];
    assert (analyses + [a])[..i] == analyses;
  }

  /** Analysing one more row appends the classifier's result on its text. */
  lemma AnalysesSnoc(rows: seq<TranscriptRow>, i: nat)
    requires i < |rows|
    ensures AnalysesOf(rows[..i + 1]) == AnalysesOf(rows[..i]) + [Agent.AnalyzeTranscript(rows[i].transcript)]
  {
    assert rows[..i + 1][..i] == rows[..i];
  }

  /**
   * After the first `i` rows, analysed as `seen`: `results` lists them, the
   * save log has one call per row appended to `calls0`, and the table holds
   * their rows after `table0`, unless writes fail.
   */
  ghost predicate BatchDone(db: Database<Agent.Analysis>, rows: seq<TranscriptRow>, customerId: string, i: nat,
                            results: seq<BatchEntry>, seen: seq<Agent.Analysis>,
                            calls0: seq<SaveRequest<Agent.Analysis>>, table0: seq<AnalysisRow<Agent.Analysis>>)
    reads db
  {
    && i <= |rows| && |seen| == i
    && results == EntriesOf(rows[..i], seen)
    && db.saveCalls == calls0 + RequestsOf(rows[..i], customerId, seen)
    && db.analyses == if db.writeFault.None? then Inserted(table0, RequestsOf(rows[..i], customerId, seen)) else table0
  }

  /** One round of the loop of `batch_analyze_customer`: row `i` is analysed as `a`, saved and listed. */
  method AnalyzeNext(db: Database<Agent.Analysis>, rows: seq<TranscriptRow>, customerId: string, i: nat,
                     results: seq<BatchEntry>, ghost seen: seq<Agent.Analysis>,
                     ghost calls0: seq<SaveRequest<Agent.Analysis>>, ghost table0: seq<AnalysisRow<Agent.Analysis>>)
    returns (entry: BatchEntry, ghost a: Agent.Analysis)
    requires db.Valid()
    requires i < |rows| && BatchDone(db, rows, customerId, i, results, seen, calls0, table0)
    modifies db
    ensures db.Valid()
    ensures db.transcripts == old(db.transcripts)
    ensures db.readFault == old(db.readFault) && db.writeFault == old(db.writeFault)
    ensures a == Agent.AnalyzeTranscript(rows[i].transcript)
    ensures BatchDone(db, rows, customerId, i + 1, results + [entry], seen + [a], calls0, table0)
  {
    var outcome := Agent.AnalyzeAndSave(db, rows[i].id, customerId, rows[i].transcript);
    a := outcome.analysis;
    ListSnoc(rows, i, customerId, seen, a);
    if db.writeFault.None? {
      InsertedSnoc(table0, RequestsOf(rows[..i], customerId, seen), Agent.SaveRequestFor(rows[i].id, customerId, a));
    }
    entry := EntryOf(rows[i].id, outcome.analysis);
  }

  /**
   * The loop of `batch_analyze_customer`: each row, in order, is analysed and
   * saved once and listed with its id, intent, sentiment and overall confidence.
   */
  method AnalyzeEach(db: Database<Agent.Analysis>, rows: seq<TranscriptRow>, customerId: string)
    returns (results: seq<BatchEntry>)
    requires db.Valid()
    modifies db
    ensures db.Valid()
    ensures db.transcripts == old(db.transcripts)
    ensures db.readFault == old(db.readFault) && db.writeFault == old(db.writeFault)
    ensures results == EntriesOf(rows, AnalysesOf(rows))
    ensures db.saveCalls == old(db.saveCalls) + RequestsOf(rows, customerId, AnalysesOf(rows))
    ensures db.analyses
         == if db.writeFault.None? then Inserted(old(db.analyses), RequestsOf(rows, customerId, AnalysesOf(rows)))
            else old(db.analyses)
  {
    ghost var calls0, table0 := db.saveCalls, db.analyses;
    ghost var seen: seq<Agent.Analysis> := [];
    results := [];
    for i := 0 to |rows|
      invariant db.Valid()
      invariant db.transcripts == old(db.transcripts)
      invariant db.readFault == old(db.readFault) && db.writeFault == old(db.writeFault)
      invariant seen == AnalysesOf(rows[..i])
      invariant BatchDone(db, rows, customerId, i, results, seen, calls0, table0)
    {
      var entry;
      ghost var a;
      entry, a := AnalyzeNext(db, rows, customerId, i, results, seen, calls0, table0);
      AnalysesSnoc(rows, i);
      results := results + [entry];
      seen := seen + [a];
    }
    assert rows[..|rows|] == rows;
  }

  /**
   * `batch_analyze_customer`: a store error ends the call with an error and
   * no save; otherwise each fetched transcript, in fetch order, is analysed
   * and saved once, and listed with its id, intent, sentiment and overall
   * confidence.
   */
  method BatchAnalyzeCustomer(db: Database<Agent.Analysis>, customerId: string) returns (r: Reply<BatchReply>)
    requires db.Valid()
    modifies db
    ensures db.Valid()
    ensures db.transcripts == old(db.transcripts)
    ensures db.readFault == old(db.readFault) && db.writeFault == old(db.writeFault)
    ensures old(db.readFault).Some? ==>
      && r == Error("Could not fetch customer transcripts")
      && db.saveCalls == old(db.saveCalls) && db.analyses == old(db.analyses)
    ensures old(db.readFault).None? ==>
      var rows := old(db.TranscriptsOfCustomer(customerId)).rows;
      var reqs := RequestsOf(rows, customerId, AnalysesOf(rows));
      && r.Ok?
      && r.value.customerId == customerId
      && r.value.transcriptsAnalyzed == |r.value.analyses| == |rows|
      && r.value.analyses == EntriesOf(rows, AnalysesOf(rows))
      && db.saveCalls == old(db.saveCalls) + reqs
      && db.analyses == if db.writeFault.None? then Inserted(old(db.analyses), reqs) else old(db.analyses)
  {
    var transcripts := db.TranscriptsOfCustomer(customerId);
    if transcripts.ListFailed? {
      return Error("Could not fetch customer transcripts");
    }
    var results := AnalyzeEach(db, transcripts.rows, customerId);
    r := Ok(BatchReply(customerId, |results|, results));
  }
}
