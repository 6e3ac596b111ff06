/** A read whose status is an error although no row is missing. */
module RowReaderRuns {
  import opened ByteStrings
  import opened Options
  import opened RowSets
  import opened ReadRowsParsing
  import opened ReadRowsEncoding
  import opened RowStreams
  import opened RetryPolicies
  import opened RowReaders

  const ROW := Row([97], [Cell([97], [102], [99], 0, [118], [])])
  const FIRST_REQUEST := Request(RowSet([], []), 1)

  /** Sends the row in answer to the first request; every stream ends with an error. */
  function BreaksAfterRow(request: Request, attempt: nat): Script {
    Script(if request == FIRST_REQUEST then [EncodeRows([ROW])] else [], UNAVAILABLE)
  }

  lemma {:induction false} FirstStream()
    ensures WellFormedRows([ROW], []) && Answer([ROW], FIRST_REQUEST) == [ROW]
    ensures Drive(INITIAL, Flatten([EncodeRows([ROW])]), UNAVAILABLE) == Yield([ROW], UNAVAILABLE)
  {
    assert Flatten([EncodeRows([ROW])]) == EncodeRows([ROW]);
    ParseOfEncode([ROW]);
  }

  lemma {:induction false} IsLegalClient()
    ensures LegalClient([ROW], BreaksAfterRow)
  {
    FirstStream();
    forall request, attempt ensures Legal([ROW], request, BreaksAfterRow(request, attempt)) {
      if request != FIRST_REQUEST {
        assert Drive(INITIAL, Flatten([]), UNAVAILABLE) == Yield([], UNAVAILABLE);
      }
    }
  }

  /** With any retry policy, the one row is delivered, nothing is raised, and `Finish()` reports an error. */
  method ErrorAfterLastRow(maximumFailures: int, raiseOnError: bool)
    returns (rows: seq<Row>, raised: bool, finish: Status)
    ensures rows == [ROW] && !raised && finish == UNAVAILABLE
  {
    FirstStream();
    IsLegalClient();
    var policy := new LimitedErrorCountRetryPolicy(maximumFailures);
    var reader := new RowReader([ROW], BreaksAfterRow, RowSet([], []), 1, policy, raiseOnError);
    rows, raised := reader.ReadAll();
    assert Streamed(reader.serve, reader.sent, 0) == Yield([ROW], UNAVAILABLE);
    finish := reader.status;
  }

  // ----- which failures are retried

  /** A request for the row, as the service reads it. */
  predicate AsksFor(rows: RowSet, key: Bytes) {
    rows.HasEntries() ==>
      key in rows.rowKeys || exists i :: 0 <= i < |rows.rowRanges| && rows.rowRanges[i].Contains(key)
  }

  /** The first stream breaks with `code` before any row; the others are complete. */
  function BreaksOnce(code: Status, request: Request, attempt: nat): Script {
    if attempt == 0 then Script([], code)
    else Script(if AsksFor(request.rows, ROW.rowKey) then [EncodeRows([ROW])] else [], OK)
  }

  function Service(code: Status): (Request, nat) -> Script {
    (request: Request, attempt: nat) => BreaksOnce(code, request, attempt)
  }

  lemma {:induction false} OneRowAnswer(request: Request)
    ensures Answer([ROW], request) == if AsksFor(request.rows, ROW.rowKey) then [ROW] else []
  {
    assert AsksFor(request.rows, ROW.rowKey) <==> request.rows.Denotes(ROW.rowKey);
    assert Matching([ROW][1..], request.rows) == [];
  }

  lemma {:induction false} WholeStream()
    ensures Drive(INITIAL, Flatten([EncodeRows([ROW])]), OK) == Yield([ROW], OK)
  {
    assert WellFormedRows([ROW], []);
    assert Flatten([EncodeRows([ROW])]) == EncodeRows([ROW]);
    ParseOfEncode([ROW]);
  }

  lemma {:induction false} EmptyStream(code: Status)
    ensures Drive(INITIAL, Flatten([]), code) == Yield([], code)
  {
  }

  lemma {:induction false} BreaksOnceIsLegal(code: Status)
    requires code != OK
    ensures LegalClient([ROW], Service(code))
  {
    hide Drive;
    WholeStream();
    EmptyStream(code);
    EmptyStream(OK);
    forall request, attempt ensures Legal([ROW], request, Service(code)(request, attempt)) {
      OneRowAnswer(request);
    }
  }

  /**
   Reads all rows from a service whose first stream breaks. After DEADLINE_EXCEEDED (4), ABORTED
   (10) and UNAVAILABLE (14) the row is read with a second request; any other error ends the read.
   */
  method ReadAfterBreak(code: Status, maximumFailures: int, raiseOnError: bool)
    returns (rows: seq<Row>, raised: bool, finish: Status, requests: nat)
    requires code != 0 && maximumFailures >= 1
    ensures code in {4, 10, 14} ==> rows == [ROW] && !raised && finish == 0 && requests == 2
    ensures code !in {4, 10, 14} ==> rows == [] && raised == raiseOnError && finish == code && requests == 1
  {
    hide Drive, Answer;
    BreaksOnceIsLegal(code);
    EmptyStream(code);
    assert WellFormedRows([ROW], []);
    var policy := new LimitedErrorCountRetryPolicy(maximumFailures);
    var all := RowSet([], []);
    var reader := new RowReader([ROW], Service(code), all, 0, policy, raiseOnError);
    OneRowAnswer(Request(all, 0));
    rows, raised := reader.ReadAll();
    finish, requests := reader.status, reader.calls;
    assert Streamed(reader.serve, reader.sent, 0) == Yield([], code);
    if |reader.sent| == 1 {
      assert all.Denotes([]);
      assert reader.MoreToAsk();
    } else {
      SecondStream(code, reader.sent);
    }
  }

  lemma {:induction false} SecondStream(code: Status, sent: seq<Sent>)
    requires code != 0 && |sent| > 1
    ensures Streamed(Service(code), sent, 1).status == 0
  {
    WholeStream();
    EmptyStream(OK);
  }

  /** After `Cancel` nothing is read: the loop raises, or `Finish()` reports CANCELLED (1). */
  method ReadAfterCancel(raiseOnError: bool) returns (rows: seq<Row>, raised: bool, finish: Status)
    ensures rows == [] && raised == raiseOnError && (!raised ==> finish == 1)
  {
    FirstStream();
    IsLegalClient();
    var policy := new LimitedErrorCountRetryPolicy(3);
    var reader := new RowReader([ROW], BreaksAfterRow, RowSet([], []), 1, policy, raiseOnError);
    reader.Cancel();
    rows, raised := reader.ReadAll();
    finish := reader.status;
  }
}
