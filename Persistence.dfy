/**
 * An in-memory stand-in for `TranscriptDatabase` (agents/database.py), the
 * persistence collaborator of the classifier and the tools. It keeps the
 * two tables as sequences and answers the queries the core issues:
 * a transcript by id, the transcripts of a customer, saving an analysis and
 * fetching one back. Every SQLite exception is modelled by a fault message:
 * while `readFault` (or `writeFault`) holds a message, each query (or each
 * insert) returns that message the way the source returns `{"error": str(e)}`.
 *
 * The serialized record (`raw_analysis`) is of a type the store does not
 * look into, given as the type parameter `Raw`.
 */
module Persistence {
  import opened Wrappers
  import opened Text

  /** A row of `call_transcripts`. */
  datatype TranscriptRow = TranscriptRow(
    id: int,
    customerId: string,
    customerName: string,
    transcript: string,
    callDate: string,
    durationSeconds: int,
    phoneNumber: string)

  /** The arguments of `save_analysis_result`. */
  datatype SaveRequest<Raw> = SaveRequest(
    transcriptId: int,
    customerId: string,
    intent: string,
    sentiment: string,
    confidenceScore: real,
    rawAnalysis: Raw)

  /** A row of `analysis_results` (its `analysis_date` is left out). */
  datatype AnalysisRow<Raw> = AnalysisRow(
    id: int,
    transcriptId: int,
    customerId: string,
    intent: string,
    sentiment: string,
    confidenceScore: real,
    rawAnalysis: Raw)

  /** A single-row query: the row, `None`, or the error dictionary. */
  datatype Fetched<T> = Found(row: T) | Missing | Failed(error: string)

  /** A list query: the rows, or the one-element list holding the error dictionary. */
  datatype RowList<T> = Rows(rows: seq<T>) | ListFailed(error: string)

  /** What `save_analysis_result` returns; `success` is `Saved?`. */
  datatype SaveResult = Saved(analysisId: int, message: string) | SaveFailed(error: string)

  function RowFor<Raw>(id: int, req: SaveRequest<Raw>): AnalysisRow<Raw>
  {
    AnalysisRow(id, req.transcriptId, req.customerId, req.intent, req.sentiment, req.confidenceScore, req.rawAnalysis)
  }

  /**
   * The `analysis_results` table after inserting `reqs` in order into
   * `table`: each request becomes one row, numbered after the rows before it.
   */
  function Inserted<Raw>(table: seq<AnalysisRow<Raw>>, reqs: seq<SaveRequest<Raw>>): (r: seq<AnalysisRow<Raw>>)
    ensures |r| == |table| + |reqs|
  {
    if reqs == [] then table
    else
      var t := Inserted(table, reqs[..|reqs| - 1]);
      t + [RowFor(|t| + 1, reqs[|reqs| - 1])]
  }

  /** Inserting one more request appends its row to the table. */
  lemma InsertedSnoc<Raw>(table: seq<AnalysisRow<Raw>>, reqs: seq<SaveRequest<Raw>>, req: SaveRequest<Raw>)
    ensures Inserted(table, reqs + [req]) == Inserted(table, reqs) + [RowFor(|Inserted(table, reqs)| + 1, req)]
  {
    assert (reqs + [req])[..|reqs|] == reqs;
  }

  /** The existing rows stay in place, and request `k` becomes the row numbered `|table| + k + 1`. */
  lemma {:induction false} InsertedAt<Raw>(table: seq<AnalysisRow<Raw>>, reqs: seq<SaveRequest<Raw>>, k: nat)
    requires k < |table| + |reqs|
    ensures Inserted(table, reqs)[k] == if k < |table| then table[k] else RowFor(k + 1, reqs[k - |table|])
  {
    if reqs != [] {
      var init := reqs[..|reqs| - 1];
      if k < |table| + |init| {
        InsertedAt(table, init, k);
      }
    }
  }

  predicate DistinctIds(rows: seq<TranscriptRow>)
  {
    forall i, j :: 0 <= i < j < |rows| ==> rows[i].id != rows[j].id
  }

  /** `WHERE id = ?` on `call_transcripts`. */
  function FindTranscript(rows: seq<TranscriptRow>, id: int): (r: Option<TranscriptRow>)
    ensures r.Some? ==> r.value in rows && r.value.id == id
    ensures r.None? <==> forall i :: 0 <= i < |rows| ==> rows[i].id != id
  {
    if rows == [] then None
    else if rows[0].id == id then Some(rows[0])
    else FindTranscript(rows[1..], id)
  }

  /** `WHERE id = ?` on `analysis_results`. */
  function FindAnalysis<Raw>(rows: seq<AnalysisRow<Raw>>, id: int): (r: Option<AnalysisRow<Raw>>)
    ensures r.Some? ==> r.value in rows && r.value.id == id
    ensures r.None? <==> forall i :: 0 <= i < |rows| ==> rows[i].id != id
  {
    if rows == [] then None
    else if rows[0].id == id then Some(rows[0])
    else FindAnalysis(rows[1..], id)
  }

  /** `WHERE customer_id = ?` on `call_transcripts`, in table order. */
  function OfCustomer(rows: seq<TranscriptRow>, customerId: string): (r: seq<TranscriptRow>)
    ensures forall row :: row in r <==> row in rows && row.customerId == customerId
  {
    if rows == [] then []
    else
      OfCustomer(rows[..|rows| - 1], customerId)
      + (if rows[|rows| - 1].customerId == customerId then [rows[|rows| - 1]] else [])
  }

  /** The rows carry the ids 1, 2, ..., |rows| in order, as AUTOINCREMENT hands them out. */
  predicate Numbered<Raw>(rows: seq<AnalysisRow<Raw>>)
  {
    rows == [] || (Numbered(rows[..|rows| - 1]) && rows[|rows| - 1].id == |rows|)
  }

  /** In a numbered table, row `k` carries the id `k + 1`. */
  lemma {:induction false} NumberedAt<Raw>(rows: seq<AnalysisRow<Raw>>, k: nat)
    requires Numbered(rows)
    requires k < |rows|
    ensures rows[k].id == k + 1
  {
    if k < |rows| - 1 {
      NumberedAt(rows[..|rows| - 1], k);
    }
  }

  /** Appending the row numbered after the last one keeps a table numbered. */
  lemma NumberedSnoc<Raw>(rows: seq<AnalysisRow<Raw>>, req: SaveRequest<Raw>)
    requires Numbered(rows)
    ensures Numbered(rows + [RowFor(|rows| + 1, req)])
  {
    assert (rows + [RowFor(|rows| + 1, req)])[..|rows|] == rows;
  }

  /** Rows numbered 1, 2, ... have distinct ids, so a lookup finds the row with that number. */
  lemma FindNumbered<Raw>(rows: seq<AnalysisRow<Raw>>, k: nat)
    requires Numbered(rows)
    requires k < |rows|
    ensures FindAnalysis(rows, k + 1) == Some(rows[k])
  {
    forall i | 0 <= i < |rows|
      ensures rows[i].id == i + 1
    {
      NumberedAt(rows, i);
    }
    FindAnalysisUnique(rows, k);
  }

  /** In a table whose ids are all distinct, the lookup finds the row carrying the id. */
  lemma {:induction false} FindAnalysisUnique<Raw>(rows: seq<AnalysisRow<Raw>>, k: nat)
    requires forall i, j :: 0 <= i < j < |rows| ==> rows[i].id != rows[j].id
    requires k < |rows|
    ensures FindAnalysis(rows, rows[k].id) == Some(rows[k])
  {
    if k > 0 {
      var tail := rows[1..];
      assert forall i, j :: 0 <= i < j < |tail| ==> tail[i].id != tail[j].id by {
        assert forall i :: 0 <= i < |tail| ==> tail[i] == rows[i + 1];
      }
      assert rows[0].id != rows[k].id;
      FindAnalysisUnique(tail, k - 1);
    }
  }

  /** What `save_analysis_result(req)` reports, given the write fault and the current `analysis_results` rows. */
  function SaveOutcome<Raw>(writeFault: Option<string>, table: seq<AnalysisRow<Raw>>, req: SaveRequest<Raw>): SaveResult
  {
    if writeFault.Some? then SaveFailed(writeFault.value)
    else Saved(|table| + 1, "Analysis saved for transcript " + IntToString(req.transcriptId))
  }

  /** The `analysis_results` rows after `save_analysis_result(req)`: one more row, unless writes fail. */
  function TableAfterSave<Raw>(writeFault: Option<string>, table: seq<AnalysisRow<Raw>>, req: SaveRequest<Raw>)
    : seq<AnalysisRow<Raw>>
  {
    if writeFault.Some? then table else table + [RowFor(|table| + 1, req)]
  }

  /** The store: both tables, the fault state, and the log of every save call issued to it. */
  class Database<Raw> {
    var transcripts: seq<TranscriptRow>
    var analyses: seq<AnalysisRow<Raw>>
    var readFault: Option<string>
    var writeFault: Option<string>
    ghost var saveCalls: seq<SaveRequest<Raw>>

    /** Transcript ids are a primary key; analysis ids are handed out 1, 2, ... (AUTOINCREMENT). */
    ghost predicate Valid()
      reads this
    {
      && DistinctIds(transcripts)
      && Numbered(analyses)
    }

    /** A store holding the given transcripts and no analyses yet. */
    constructor (transcripts: seq<TranscriptRow>, readFault: Option<string>, writeFault: Option<string>)
      requires DistinctIds(transcripts)
      ensures Valid()
      ensures this.transcripts == transcripts && analyses == []
      ensures this.readFault == readFault && this.writeFault == writeFault
      ensures saveCalls == []
    {
      this.transcripts := transcripts;
      analyses := [];
      this.readFault := readFault;
      this.writeFault := writeFault;
      saveCalls := [];
    }

    /** `get_transcript_by_id`. */
    function TranscriptById(id: int): (r: Fetched<TranscriptRow>)
      reads this
      ensures readFault.Some? <==> r.Failed?
      ensures r.Failed? ==> r.error == readFault.value
      ensures r.Found? <==> readFault.None? && exists i :: 0 <= i < |transcripts| && transcripts[i].id == id
      ensures r.Found? ==> r.row in transcripts && r.row.id == id
    {
      if readFault.Some? then Failed(readFault.value)
      else
        match FindTranscript(transcripts, id)
        case Some(row) => Found(row)
        case None => Missing
    }

    /** `get_transcript_by_customer` (its `ORDER BY call_date DESC` is left out: rows come in table order). */
    function TranscriptsOfCustomer(customerId: string): (r: RowList<TranscriptRow>)
      reads this
      ensures readFault.Some? <==> r.ListFailed?
      ensures r.Rows? ==> forall row :: row in r.rows <==> row in transcripts && row.customerId == customerId
    {
      if readFault.Some? then ListFailed(readFault.value) else Rows(OfCustomer(transcripts, customerId))
    }

    /** `get_analysis_result`. */
    function AnalysisById(id: int): (r: Fetched<AnalysisRow<Raw>>)
      reads this
      ensures readFault.Some? <==> r.Failed?
      ensures r.Failed? ==> r.error == readFault.value
      ensures r.Found? <==> readFault.None? && exists i :: 0 <= i < |analyses| && analyses[i].id == id
      ensures r.Found? ==> r.row in analyses && r.row.id == id
    {
      if readFault.Some? then Failed(readFault.value)
      else
        match FindAnalysis(analyses, id)
        case Some(row) => Found(row)
        case None => Missing
    }

    /**
     * `save_analysis_result`: the insert succeeds unless writes fail; the
     * row it adds can be fetched back by the id it reports.
     */
    method SaveAnalysisResult(req: SaveRequest<Raw>) returns (r: SaveResult)
      requires Valid()
      modifies this
      ensures Valid()
      ensures transcripts == old(transcripts)
      ensures readFault == old(readFault) && writeFault == old(writeFault)
      ensures saveCalls == old(saveCalls) + [req]
      ensures r == SaveOutcome(writeFault, old(analyses), req)
      ensures analyses == TableAfterSave(writeFault, old(analyses), req)
      ensures r.Saved? <==> writeFault.None?
      ensures r.Saved? && readFault.None? ==> AnalysisById(r.analysisId) == Found(RowFor(r.analysisId, req))
    {
      saveCalls := saveCalls + [req];
      if writeFault.Some? {
        r := SaveFailed(writeFault.value);
      } else {
        var id := |analyses| + 1;
        NumberedSnoc(analyses, req);
        analyses := analyses + [RowFor(id, req)];
        r := Saved(id, "Analysis saved for transcript " + IntToString(req.transcriptId));
        FindNumbered(analyses, id - 1);
      }
    }
  }
}
