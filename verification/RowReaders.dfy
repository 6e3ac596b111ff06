/**
 `RowReader`: streams rows, and on failure narrows the row set to the keys after the
 last delivered row, lowers the limit and asks again.
 */
module RowReaders {
  import opened ByteStrings
  import opened Options
  import opened RowRanges
  import opened RowSets
  import opened ReadRowsParsing
  import opened ReadRowsEncoding
  import opened RowStreams
  import opened RetryPolicies

  const NO_ROWS_LIMIT := 0

  /** A request, with the number of rows delivered before it was sent. */
  datatype Sent = Sent(request: Request, before: nat)

  /** Narrowing again, to the keys after a later row, subsumes the earlier narrowing. */
  lemma {:induction false} NarrowedFurther(
      original: RowSet, goal: seq<Row>, m: nat, n: nat, before: RowSet, after: RowSet)
    requires WellFormedRows(goal, [])
    requires m <= n <= |goal|
    requires Narrowed(original, goal, m, before)
    requires if n == 0 then after == before
             else forall k :: after.Denotes(k) <==> before.Denotes(k) && Less(goal[n - 1].rowKey, k)
    ensures Narrowed(original, goal, n, after)
  {
    StrictTotalOrder();
    if 0 < m < n {
      assert Less(goal[m - 1].rowKey, goal[n - 1].rowKey);
    }
  }

  /** The request continues where the rows delivered before it end, for the limit that is left. */
  ghost predicate Resumes(original: RowSet, limit: nat, goal: seq<Row>, s: Sent) {
    && s.before <= |goal|
    && Narrowed(original, goal, s.before, s.request.rows)
    && (if limit == NO_ROWS_LIMIT then s.request.rowsLimit == 0
        else s.request.rowsLimit > 0 && s.before + s.request.rowsLimit == limit)
  }

  ghost predicate AllResume(original: RowSet, limit: nat, goal: seq<Row>, sent: seq<Sent>, delivered: nat) {
    forall i :: 0 <= i < |sent| ==> sent[i].before <= delivered && Resumes(original, limit, goal, sent[i])
  }

  lemma {:induction false} StillResume(original: RowSet, limit: nat, goal: seq<Row>, sent: seq<Sent>, delivered: nat)
    requires AllResume(original, limit, goal, sent, delivered)
    ensures AllResume(original, limit, goal, sent, delivered + 1)
  {
  }

  /** What the stream that answered request number `j` holds. */
  ghost function Streamed(serve: (Request, nat) -> Script, sent: seq<Sent>, j: nat): Yield
    requires j < |sent|
  {
    var script := serve(sent[j].request, j);
    Drive(INITIAL, Flatten(script.responses), script.finish)
  }

  /**
   The first request asks for everything; another one follows only a drained stream that
   ended with DEADLINE_EXCEEDED, ABORTED or UNAVAILABLE.
   */
  ghost predicate Chained(serve: (Request, nat) -> Script, first: Request, sent: seq<Sent>) {
    && (sent != [] ==> sent[0] == Sent(first, 0))
    && forall j {:trigger Streamed(serve, sent, j)} :: 0 <= j < |sent| - 1 ==>
         && Streamed(serve, sent, j).status in {4, 10, 14}
         && sent[j + 1].before == sent[j].before + |Streamed(serve, sent, j).rows|
  }

  lemma {:induction false} ChainedFurther(serve: (Request, nat) -> Script, first: Request, sent: seq<Sent>, next: Sent)
    requires Chained(serve, first, sent)
    requires if sent == [] then next == Sent(first, 0)
             else var last := |sent| - 1;
                  && Streamed(serve, sent, last).status in {4, 10, 14}
                  && next.before == sent[last].before + |Streamed(serve, sent, last).rows|
    ensures Chained(serve, first, sent + [next])
  {
    forall j | 0 <= j < |sent| ensures Streamed(serve, sent + [next], j) == Streamed(serve, sent, j) {
    }
  }

  /** Taking the next row of the stream keeps the rows on the way to the goal. */
  lemma {:induction false} OneRowOn(delivered: seq<Row>, row: Row, rest: Yield, goal: seq<Row>)
    requires OnTheWay(delivered, Yield([row] + rest.rows, rest.status), goal)
    ensures delivered + [row] <= goal && OnTheWay(delivered + [row], rest, goal)
  {
    assert delivered + ([row] + rest.rows) == delivered + [row] + rest.rows;
  }

  class RowReader {
    // The environment: the table behind the service, and what each call to it brings.
    ghost const table: seq<Row>
    const serve: (Request, nat) -> Script
    var calls: nat

    ghost const original: RowSet
    const rowsLimit: nat
    ghost const priorFailures: nat
    const retryPolicy: LimitedErrorCountRetryPolicy
    const raiseOnError: bool

    var rowSet: RowSet
    var parser: ReadRowsParser?
    var stream: Option<Script>
    var streamIsOpen: bool
    var operationCancelled: bool
    var response: seq<CellChunk>
    var processedChunksCount: nat
    var rowsCount: nat
    var lastReadRowKey: Bytes
    var status: Status

    ghost var delivered: seq<Row>
    ghost var sent: seq<Sent>
    ghost var stopped: bool  // a call to Advance came back without a row
    ghost var refused: bool  // ... because the retry policy said no

    /** All the rows the caller asked for, in order. */
    ghost function Goal(): seq<Row> {
      Answer(table, Request(original, rowsLimit))
    }

    /** The limit is not reached, and the row set has a key after the last delivered row. */
    ghost predicate MoreToAsk()
      reads `delivered
    {
      && (rowsLimit == NO_ROWS_LIMIT || |delivered| < rowsLimit)
      && exists k :: original.Denotes(k) && (delivered != [] ==> Less(delivered[|delivered| - 1].rowKey, k))
    }

    /** The chunks of the current stream that the parser has not seen. */
    ghost function PendingChunks(): seq<CellChunk>
      requires stream.Some?
      reads `response, `processedChunksCount, `stream
    {
      if processedChunksCount < |response| then response[processedChunksCount + 1..] + Flatten(stream.value.responses)
      else Flatten(stream.value.responses)
    }

    /** What the current stream has yet to yield. */
    ghost function Ahead(): Yield
      requires stream.Some? && parser != null
      reads `response, `processedChunksCount, `stream, `parser, parser
    {
      Drive(parser.State(), PendingChunks(), stream.value.finish)
    }

    /** Tables are sorted and the service, however unreliable, never lies. */
    ghost predicate Environment() {
      WellFormedRows(table, []) && LegalClient(table, serve)
    }

    /** The delivered rows are the start of the goal, and every request resumed from them. */
    ghost predicate Sound()
      reads `delivered, `rowsCount, `lastReadRowKey, `stream, `streamIsOpen, `parser, `sent, `calls
    {
      && calls == |sent|
      && Chained(serve, Request(original, rowsLimit), sent)
      && AllResume(original, rowsLimit, Goal(), sent, |delivered|)
      && delivered <= Goal()
      && rowsCount == |delivered|
      && lastReadRowKey == (if delivered == [] then [] else delivered[|delivered| - 1].rowKey)
      && (stream.Some? <==> parser != null)
      && (stream.Some? <==> sent != [])
      && (streamIsOpen ==> stream.Some?)
    }

    /** Every request but the first was sent after a failure that the policy let pass. */
    ghost predicate RequestsBounded()
      reads `sent
    {
      |sent| > 1 ==> priorFailures + |sent| - 1 <= retryPolicy.maximumFailures
    }

    /** The policy has counted one failure for each request but the current one. */
    ghost predicate FailuresCounted()
      reads `sent, retryPolicy
    {
      retryPolicy.failureCount == priorFailures + if sent == [] then 0 else |sent| - 1
    }

    /** The last stream has given all its rows, and ended with `result`. */
    ghost predicate Drained(result: Status)
      reads `sent, `delivered
    {
      && sent != []
      && var stream := Streamed(serve, sent, |sent| - 1);
         result == stream.status && |delivered| == sent[|sent| - 1].before + |stream.rows|
    }

    /** The next request is the first one, or follows a drained stream with a transient failure. */
    ghost predicate MayAsk()
      reads `sent, `delivered, `rowSet
    {
      if sent == [] then rowSet == original && delivered == []
      else var failure := Streamed(serve, sent, |sent| - 1).status; failure in {4, 10, 14} && Drained(failure)
    }

    /** The policy has a reason to refuse: a permanent failure, or as many failures as streams, and too many. */
    ghost predicate Refusable()
      reads `sent, `status, retryPolicy
    {
      || status !in {0, 4, 10, 14}
      || (retryPolicy.IsExhausted() && priorFailures + |sent| > retryPolicy.maximumFailures)
    }

    /** The current stream and the current row set lead to the rest of the goal. */
    ghost predicate OnCourse()
      requires stream.Some? <==> parser != null
      reads `delivered, `rowSet, `sent, `response, `processedChunksCount, `stream, `parser, parser
    {
      && (sent == [] ==> rowSet == original && delivered == [] && stream.None?)
      && (sent != [] ==> rowSet == sent[|sent| - 1].request.rows)
      && (stream.Some? ==> OnTheWay(delivered, Ahead(), Goal()))
      && (stream.Some? && sent != [] ==>
            var whole := Streamed(serve, sent, |sent| - 1);
            && Ahead().status == whole.status
            && |delivered| + |Ahead().rows| == sent[|sent| - 1].before + |whole.rows|)
    }

    ghost predicate Valid()
      reads `delivered, `rowsCount, `lastReadRowKey, `stream, `streamIsOpen, `parser, `sent, `calls
      reads `rowSet, `response, `processedChunksCount, `operationCancelled, `stopped, `refused, parser, retryPolicy
    {
      && Sound()
      && RequestsBounded()
      && (!stopped && !operationCancelled ==> OnCourse() && FailuresCounted() && !refused)
      && (stopped && !operationCancelled && !refused ==> delivered == Goal())
    }

    constructor (ghost table: seq<Row>, serve: (Request, nat) -> Script, rowSet: RowSet, rowsLimit: nat,
                 retryPolicy: LimitedErrorCountRetryPolicy, raiseOnError: bool)
      requires WellFormedRows(table, []) && LegalClient(table, serve)
      ensures Environment() && Valid() && !stopped && !operationCancelled && stream.None?
      ensures delivered == [] && sent == []
      ensures priorFailures == retryPolicy.failureCount
      ensures this.serve == serve && original == rowSet && this.rowsLimit == rowsLimit
      ensures Goal() == Answer(table, Request(rowSet, rowsLimit))
      ensures this.retryPolicy == retryPolicy && this.raiseOnError == raiseOnError
    {
      this.table, this.serve, this.original, this.rowsLimit := table, serve, rowSet, rowsLimit;
      this.retryPolicy, this.raiseOnError := retryPolicy, raiseOnError;
      priorFailures := retryPolicy.failureCount;
      this.rowSet, this.parser, this.stream, calls := rowSet, null, None, 0;
      streamIsOpen, operationCancelled := false, false;
      response, processedChunksCount, rowsCount, lastReadRowKey, status := [], 0, 0, [], OK;
      delivered, sent, stopped, refused := [], [], false, false;
    }

    /** Everything about the next request and its stream that does not depend on the parser. */
    lemma {:induction false} RequestResumes(request: Request, script: Script, next: seq<Sent>)
      requires Environment() && Sound() && MayAsk()
      requires Narrowed(original, Goal(), rowsCount, rowSet)
      requires rowsLimit == NO_ROWS_LIMIT || rowsCount < rowsLimit
      requires request == Request(rowSet, if rowsLimit != NO_ROWS_LIMIT then rowsLimit - rowsCount else 0)
      requires script == serve(request, calls) && next == sent + [Sent(request, rowsCount)]
      ensures AllResume(original, rowsLimit, Goal(), next, |delivered|)
      ensures Chained(serve, Request(original, rowsLimit), next)
      ensures var whole := Drive(INITIAL, Flatten(script.responses), script.finish);
              Streamed(serve, next, |sent|) == whole && OnTheWay(delivered, whole, Goal())
    {
      hide Drive, Chained, Answer, Narrowed, OnTheWay, Flatten;
      LegalStreamResumes(table, original, rowsLimit, delivered, rowSet, script);
      ChainedFurther(serve, Request(original, rowsLimit), sent, Sent(request, rowsCount));
    }

    method MakeRequest()
      requires Environment() && Sound() && MayAsk()
      requires Narrowed(original, Goal(), rowsCount, rowSet)
      requires rowsLimit == NO_ROWS_LIMIT || rowsCount < rowsLimit
      modifies `response, `processedChunksCount, `stream, `streamIsOpen, `calls, `parser, `sent
      ensures fresh(parser)
      ensures Sound() && OnCourse()
      ensures |sent| == |old(sent)| + 1 && stream.Some?
    {
      hide Environment, AllResume, Narrowed, Drive, Answer, OnTheWay, Flatten, RowReader.Goal, Run, Chained, Streamed,
        RowReader.MayAsk;
      var request := Request(rowSet, if rowsLimit != NO_ROWS_LIMIT then rowsLimit - rowsCount else 0);
      var script := serve(request, calls);
      ghost var next := sent + [Sent(request, rowsCount)];
      RequestResumes(request, script, next);
      var freshParser := new ReadRowsParser();
      response, processedChunksCount := [], 0;
      stream, streamIsOpen, calls := Some(script), true, calls + 1;
      parser := freshParser;
      sent := next;
    }

    /** Moves to the next chunk of the stream, reading past any number of empty responses. */
    method NextChunk() returns (more: bool)
      requires stream.Some?
      modifies `processedChunksCount, `response, `stream
      ensures stream.Some? && stream.value.finish == old(stream.value.finish)
      ensures more <==> old(PendingChunks()) != []
      ensures more ==> processedChunksCount < |response|
                       && old(PendingChunks()) == [response[processedChunksCount]] + PendingChunks()
      ensures !more ==> PendingChunks() == []
    {
      ghost var pending := PendingChunks();
      processedChunksCount := processedChunksCount + 1;
      while processedChunksCount >= |response|
        invariant stream.Some? && stream.value.finish == old(stream.value.finish)
        invariant pending == (if processedChunksCount < |response| then response[processedChunksCount..] else [])
                             + Flatten(stream.value.responses)
        decreases |stream.value.responses|, processedChunksCount >= |response|
      {
        processedChunksCount := 0;
        if stream.value.responses == [] {
          response := [];
          return false;
        }
        response := stream.value.responses[0];
        stream := Some(stream.value.(responses := stream.value.responses[1..]));
      }
      return true;
    }

    /** The loop of `AdvanceOrFail`: feeds chunks until the parser has a row or the stream ends. */
    method PullRow() returns (row: Option<Row>, result: Status)
      requires stream.Some? && parser != null
      modifies `processedChunksCount, `response, `stream, `streamIsOpen, parser
      ensures stream.Some?
      ensures row.Some? <==> old(Ahead()).rows != []
      ensures row.Some? ==> result == OK && old(Ahead()) == Yield([row.value] + Ahead().rows, Ahead().status)
      ensures row.None? ==> result == old(Ahead()).status
    {
      row := None;
      ghost var ahead := Ahead();
      while !parser.HasNext()
        invariant stream.Some?
        invariant Ahead() == ahead
        decreases |PendingChunks()|
      {
        ghost var pending := PendingChunks();
        var more := NextChunk();
        if more {
          var chunk := response[processedChunksCount];
          assert pending[0] == chunk && pending[1..] == PendingChunks();
          result := parser.HandleChunk(chunk);
          if result != OK {
            return;
          }
        } else {
          streamIsOpen := false;
          result := stream.value.finish;
          if result != OK {
            return;
          }
          result := parser.HandleEndOfStream();
          return;
        }
      }
      var parsedRow;
      parsedRow, result := parser.Next();
      row := Some(parsedRow);
    }

    /** Reads one row or the end of the stream; does not handle retries. */
    method AdvanceOrFail() returns (row: Option<Row>, result: Status)
      requires Environment() && Valid() && !stopped && !operationCancelled && stream.Some?
      modifies `processedChunksCount, `response, `stream, `streamIsOpen, `rowsCount, `lastReadRowKey,
               `delivered, `stopped, parser
      ensures row.Some? <==> old(Ahead()).rows != []
      ensures row.Some? ==> result == OK && delivered == old(delivered) + [row.value]
      ensures row.None? ==> result == old(Ahead()).status && delivered == old(delivered)
      ensures stream.Some? && stopped == (row.None? && result == OK)
      ensures row.None? ==> Drained(result)
      ensures result == OK ==> Valid()
      ensures result != OK ==> Sound()
    {
      hide RowReader.Ahead, Environment, Answer, AllResume, Narrowed, Chained, Streamed;
      row, result := PullRow();
      if row.None? {
        stopped := result == OK;
        return;
      }
      OneRowOn(delivered, row.value, Ahead(), Goal());
      StillResume(original, rowsLimit, Goal(), sent, |delivered|);
      rowsCount := rowsCount + 1;
      lastReadRowKey := row.value.rowKey;
      delivered := delivered + [row.value];
    }

    lemma {:induction false} LimitReached()
      requires Sound()
      ensures rowsLimit != NO_ROWS_LIMIT && rowsLimit <= rowsCount ==> delivered == Goal() && !MoreToAsk()
    {
      hide AllResume, Chained;
      AnswerFitsLimit(table, Request(original, rowsLimit));
    }

    /** Whether a key is left in the narrowed row set says whether there is more to ask for. */
    lemma {:induction false} KeysLeft()
      requires Environment() && Sound() && Narrowed(original, Goal(), rowsCount, rowSet)
      ensures (forall k :: !rowSet.Denotes(k)) ==> delivered == Goal() && !MoreToAsk()
      ensures (exists k :: rowSet.Denotes(k)) && (rowsLimit == NO_ROWS_LIMIT || rowsCount < rowsLimit) ==> MoreToAsk()
    {
      hide AllResume, Answer;
      if forall k :: !rowSet.Denotes(k) {
        NothingLeft(table, original, rowsLimit, rowsCount, rowSet);
      }
    }

    /** After a failure: leave out the rows returned so far, and see whether any key is left. */
    method SkipDeliveredRows() returns (empty: bool)
      requires Environment() && Sound() && sent != [] && rowSet == sent[|sent| - 1].request.rows
      modifies `rowSet
      ensures Sound() && Narrowed(original, Goal(), rowsCount, rowSet)
      ensures empty ==> delivered == Goal() && !MoreToAsk()
      ensures !empty && (rowsLimit == NO_ROWS_LIMIT || rowsCount < rowsLimit) ==> MoreToAsk()
    {
      hide Answer, RowReader.MoreToAsk;
      ghost var last := sent[|sent| - 1];
      assert Resumes(original, rowsLimit, Goal(), last);
      AnswerIsWellFormed(table, Request(original, rowsLimit));
      if lastReadRowKey != [] {
        rowSet := rowSet.Intersect(OpenRange(lastReadRowKey, []));
      }
      NarrowedFurther(original, Goal(), last.before, rowsCount, last.request.rows, rowSet);
      empty := rowSet.IsEmpty();
      KeysLeft();
    }

    /** The part of `Advance` after a failure: stop, or send a new request. */
    method Recover() returns (again: bool, raised: bool)
      requires Environment() && Sound() && RequestsBounded() && FailuresCounted()
      requires sent != [] && rowSet == sent[|sent| - 1].request.rows
      requires !stopped && !refused && !operationCancelled && status != OK && Drained(status)
      modifies `rowSet, `response, `processedChunksCount, `stream, `streamIsOpen, `calls,
               `parser, `sent, `stopped, `refused, retryPolicy
      ensures Valid() && stream.Some? && again == !stopped
      ensures parser == old(parser) || fresh(parser)
      ensures stopped ==> Drained(status) && (refused <==> MoreToAsk())
      ensures raised <==> refused && raiseOnError
      ensures refused ==> Refusable()
      ensures again ==> old(retryPolicy.failureCount) < retryPolicy.failureCount <= retryPolicy.maximumFailures
    {
      hide RowReader.Ahead, AllResume, Environment, Answer, Narrowed, OnTheWay, Chained, Streamed,
        RowReader.MoreToAsk, RowReader.Goal;
      LimitReached();
      if rowsLimit != NO_ROWS_LIMIT && rowsLimit <= rowsCount {
        stopped := true;
        return false, false;
      }
      var empty := SkipDeliveredRows();
      if empty {
        stopped := true;
        return false, false;
      }
      again := retryPolicy.OnFailure(status);
      if !again {
        stopped, refused := true, true;
        return false, raiseOnError;
      }
      MakeRequest();
      raised := false;
    }

    /**
     Reads the next row, asking again after failures as long as the retry policy allows.
     An OK status without a row means that all was delivered. An error status means that the
     policy refused, or that there was nothing more to ask for when the last stream failed.
     */
    method Advance() returns (row: Option<Row>, raised: bool)
      requires Environment() && Valid() && !stopped && !operationCancelled && stream.Some?
      modifies this, parser, retryPolicy
      ensures Valid() && stream.Some? && !operationCancelled
      ensures parser == old(parser) || fresh(parser)
      ensures row.Some? ==> status == OK && !stopped && !raised && delivered == old(delivered) + [row.value]
      ensures row.None? ==> stopped && delivered == old(delivered)
      ensures row.None? ==> Drained(status) && (refused <==> status != OK && MoreToAsk())
      ensures raised <==> refused && raiseOnError
      ensures refused ==> Refusable()
    {
      hide RowReader.Ahead, AllResume, Environment, Answer, OnTheWay, Narrowed, RowReader.MoreToAsk, Chained, Streamed,
        RowReader.Goal, RowReader.Drained, RowReader.Refusable;
      while true
        invariant Valid() && !stopped && !operationCancelled && stream.Some?
        invariant parser == old(parser) || fresh(parser)
        invariant delivered == old(delivered)
        decreases retryPolicy.maximumFailures - retryPolicy.failureCount
      {
        row, status := AdvanceOrFail();
        if status == OK {
          return row, false;
        }
        var again;
        again, raised := Recover();
        if !again {
          return;
        }
      }
    }

    /** `begin()`: sends the first request if there is none, and reads the first row; refuses after `Cancel`. */
    method Begin() returns (row: Option<Row>, raised: bool)
      requires Environment() && Valid() && !stopped
      modifies this, parser, retryPolicy
      ensures Valid() && operationCancelled == old(operationCancelled)
      ensures parser == old(parser) || fresh(parser)
      ensures row.Some? ==> status == OK && !stopped && !raised && delivered == old(delivered) + [row.value]
      ensures row.None? ==> stopped && delivered == old(delivered)
      ensures operationCancelled ==> row.None? && raised == raiseOnError && sent == old(sent)
      ensures operationCancelled ==> status == if raised then old(status) else CANCELLED
      ensures !operationCancelled ==> stream.Some? && (raised <==> refused && raiseOnError)
      ensures !operationCancelled && row.None? ==> Drained(status) && (refused <==> status != OK && MoreToAsk())
      ensures !operationCancelled && refused ==> Refusable()
    {
      hide RowReader.Ahead, AllResume, Environment, Answer, OnTheWay, RowReader.MoreToAsk, Chained, Streamed;
      if operationCancelled {
        stopped := true;
        if !raiseOnError {
          status := CANCELLED;
        }
        return None, raiseOnError;
      }
      if stream.None? {
        MakeRequest();
      }
      row, raised := Advance();
    }

    /** Ends the read: whatever the open stream still holds is thrown away. */
    method Cancel()
      requires Valid()
      modifies `operationCancelled, `stream, `streamIsOpen
      ensures Valid() && operationCancelled && !streamIsOpen
      ensures stream.Some? <==> old(stream).Some?
      ensures old(streamIsOpen) ==> stream.value.responses == []
    {
      hide RowReader.Ahead, AllResume, Answer, OnTheWay, Chained;
      operationCancelled := true;
      if !streamIsOpen {
        return;
      }
      while stream.value.responses != []
        invariant stream.Some? && operationCancelled && Valid()
        decreases |stream.value.responses|
      {
        stream := Some(stream.value.(responses := stream.value.responses[1..]));
      }
      streamIsOpen := false;
    }

    /** A range-for loop over the reader: `begin()`, then `++` until there is no row. */
    method ReadAll() returns (rows: seq<Row>, raised: bool)
      requires Environment() && Valid() && !stopped && delivered == []
      modifies this, parser, retryPolicy
      ensures Valid() && rows == delivered && operationCancelled == old(operationCancelled)
      ensures rows <= Goal()
      ensures !raised && status == OK ==> rows == Goal()
      ensures operationCancelled ==> rows == [] && raised == raiseOnError && (!raised ==> status == CANCELLED)
      ensures !operationCancelled && !refused ==> rows == Goal()
      ensures !operationCancelled ==> (refused <==> status != OK && MoreToAsk())
      ensures !operationCancelled ==> (raised <==> refused && raiseOnError)
      ensures !operationCancelled && refused ==> Refusable()
      ensures !operationCancelled && refused ==>
                || status !in {0, 4, 10, 14}
                || (forall j :: 0 <= j < |sent| ==> Streamed(serve, sent, j).status in {4, 10, 14})
      ensures !operationCancelled && status !in {0, 4, 10, 14} && MoreToAsk() ==> refused
      ensures !operationCancelled ==> Drained(status) && Chained(serve, Request(original, rowsLimit), sent)
      ensures !operationCancelled && Streamed(serve, sent, 0).status == OK ==> |sent| == 1 && rows == Goal()
      ensures |sent| <= 1 || priorFailures + |sent| <= retryPolicy.maximumFailures + 1
      ensures AllResume(original, rowsLimit, Goal(), sent, |rows|)
    {
      hide RowReader.Ahead, AllResume, Environment, Answer, OnTheWay, RowReader.MoreToAsk, RowReader.Refusable, Drive;
      var row;
      row, raised := Begin();
      rows := [];
      while row.Some?
        invariant Valid() && operationCancelled == old(operationCancelled)
        invariant parser == old(parser) || fresh(parser)
        invariant row.Some? ==> stream.Some? && !operationCancelled && !stopped && delivered == rows + [row.value]
        invariant row.None? ==> stopped && delivered == rows
        invariant operationCancelled ==> rows == [] && raised == raiseOnError && (!raised ==> status == CANCELLED)
        invariant !operationCancelled && row.None? ==> Drained(status) && (refused <==> status != OK && MoreToAsk())
        invariant !operationCancelled ==> (raised <==> refused && raiseOnError)
        invariant !operationCancelled && refused ==> Refusable()
        decreases |Goal()| - |delivered|, row.Some?
      {
        rows := rows + [row.value];
        row, raised := Advance();
      }
    }
  }
}
