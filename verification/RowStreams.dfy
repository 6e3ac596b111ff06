/**
 What a ReadRows request asks for, what a server may answer, and the arithmetic of
 resuming: asking for the keys after the last delivered row, with the limit lowered,
 asks for exactly the rows not delivered yet.
 */
module RowStreams {
  import opened ByteStrings
  import opened RowSets
  import opened ReadRowsParsing
  import opened ReadRowsEncoding

  /** A limit of 0 means "no limit", as in the protocol. */
  datatype Request = Request(rows: RowSet, rowsLimit: nat)

  /** One stream: the chunks of each response, then the status that `Finish` reports. */
  datatype Script = Script(responses: seq<seq<CellChunk>>, finish: Status)

  function Flatten(responses: seq<seq<CellChunk>>): seq<CellChunk> {
    if responses == [] then [] else responses[0] + Flatten(responses[1..])
  }

  ghost function Matching(table: seq<Row>, rows: RowSet): seq<Row> {
    if table == [] then []
    else (if rows.Denotes(table[0].rowKey) then [table[0]] else []) + Matching(table[1..], rows)
  }

  function Cut(rows: seq<Row>, limit: nat): seq<Row> {
    if limit == 0 || |rows| <= limit then rows else rows[..limit]
  }

  /** The rows of `table` that answer `request`, in key order. */
  ghost function Answer(table: seq<Row>, request: Request): seq<Row> {
    Cut(Matching(table, request.rows), request.rowsLimit)
  }

  datatype Yield = Yield(rows: seq<Row>, status: Status)

  /** The rows that a parser gets out of a stream, and the status it stops with. */
  function Drive(p: ParserState, chunks: seq<CellChunk>, finish: Status): Yield {
    var parse := Run(p, chunks);
    Yield(parse.rows,
          if parse.end.Failure? then parse.end.status
          else if finish != OK then finish
          else if AtEndOfStream(parse.end.state).Failure? then AtEndOfStream(parse.end.state).status
          else OK)
  }

  /** Streams may break at any point, but carry right rows, and all of them if nothing fails. */
  ghost predicate Legal(table: seq<Row>, request: Request, script: Script) {
    var yield_ := Drive(INITIAL, Flatten(script.responses), script.finish);
    && yield_.rows <= Answer(table, request)
    && (yield_.status == OK ==> yield_.rows == Answer(table, request))
  }

  /** For every request and every attempt, whatever happens on the wire is legal. */
  ghost predicate LegalClient(table: seq<Row>, serve: (Request, nat) -> Script) {
    forall request, attempt :: Legal(table, request, serve(request, attempt))
  }

  /** `rows` denotes the keys of `original` that lie after the first `n` rows of `goal`. */
  ghost predicate Narrowed(original: RowSet, goal: seq<Row>, n: nat, rows: RowSet)
    requires n <= |goal|
  {
    forall k :: rows.Denotes(k) <==> original.Denotes(k) && (n > 0 ==> Less(goal[n - 1].rowKey, k))
  }

  /** What the stream has yet to yield continues `delivered` towards `goal`, and reaches it if nothing fails. */
  predicate OnTheWay(delivered: seq<Row>, ahead: Yield, goal: seq<Row>) {
    && delivered + ahead.rows <= goal
    && (ahead.status == OK ==> delivered + ahead.rows == goal)
  }

  // ----- rows that match

  lemma {:induction false} MatchingIsWellFormed(table: seq<Row>, rows: RowSet, last: Bytes)
    requires WellFormedRows(table, last)
    ensures WellFormedRows(Matching(table, rows), last)
  {
    if table != [] {
      StrictTotalOrder();
      MatchingIsWellFormed(table[1..], rows, table[0].rowKey);
    }
  }

  lemma {:induction false} MatchingAgrees(table: seq<Row>, a: RowSet, b: RowSet)
    requires forall i :: 0 <= i < |table| ==> (a.Denotes(table[i].rowKey) <==> b.Denotes(table[i].rowKey))
    ensures Matching(table, a) == Matching(table, b)
  {
    if table != [] {
      MatchingAgrees(table[1..], a, b);
    }
  }

  lemma {:induction false} MatchingIsExact(table: seq<Row>, rows: RowSet)
    ensures forall r :: r in Matching(table, rows) <==> r in table && rows.Denotes(r.rowKey)
  {
    if table != [] {
      MatchingIsExact(table[1..], rows);
      assert table == [table[0]] + table[1..];
    }
  }

  /**
   The answer consists of the first rows of the table whose key is asked for, in key order: all
   of them without a limit, and otherwise as many as the limit allows.
   */
  lemma {:induction false} AnswerIsExact(table: seq<Row>, request: Request)
    requires WellFormedRows(table, [])
    ensures var wanted := Matching(table, request.rows);
            && WellFormedRows(wanted, [])
            && (forall r :: r in wanted <==> r in table && request.rows.Denotes(r.rowKey))
            && Answer(table, request) <= wanted
            && |Answer(table, request)|
            == if request.rowsLimit == 0 || |wanted| < request.rowsLimit then |wanted| else request.rowsLimit
  {
    MatchingIsWellFormed(table, request.rows, []);
    MatchingIsExact(table, request.rows);
  }

  /** Narrowing to the keys after the n-th match drops the first n matches and nothing else. */
  lemma {:induction false} MatchingAfter(table: seq<Row>, original: RowSet, rows: RowSet, n: nat, last: Bytes)
    requires WellFormedRows(table, last)
    requires n <= |Matching(table, original)|
    requires Narrowed(original, Matching(table, original), n, rows)
    ensures Matching(table, rows) == Matching(table, original)[n..]
  {
    StrictTotalOrder();
    var all := Matching(table, original);
    if n == 0 {
      MatchingAgrees(table, original, rows);
    } else {
      var rest := Matching(table[1..], original);
      if original.Denotes(table[0].rowKey) {
        assert all == [table[0]] + rest;
        MatchingIsWellFormed(table, original, last);
        assert n > 1 ==> Less(all[0].rowKey, all[n - 1].rowKey);
        assert !rows.Denotes(all[0].rowKey);
        if n == 1 {
          MatchingAgrees(table[1..], original, rows);
        } else {
          MatchingAfter(table[1..], original, rows, n - 1, table[0].rowKey);
        }
      } else {
        assert all == rest;
        MatchingAfter(table[1..], original, rows, n, table[0].rowKey);
      }
    }
  }

  /** The request sent after `n` delivered rows asks for exactly the rest of the goal. */
  lemma {:induction false} ResumedAnswer(table: seq<Row>, original: RowSet, limit: nat, n: nat, rows: RowSet)
    requires WellFormedRows(table, [])
    requires n <= |Answer(table, Request(original, limit))|
    requires Narrowed(original, Answer(table, Request(original, limit)), n, rows)
    requires limit == 0 || n < limit
    ensures Answer(table, Request(rows, if limit == 0 then 0 else limit - n))
         == Answer(table, Request(original, limit))[n..]
  {
    MatchingAfter(table, original, rows, n, []);
  }

  /** A legal stream for the resumed request carries on from the rows delivered so far. */
  lemma {:induction false} LegalStreamResumes(
      table: seq<Row>, original: RowSet, limit: nat, delivered: seq<Row>, rows: RowSet, script: Script)
    requires WellFormedRows(table, [])
    requires delivered <= Answer(table, Request(original, limit))
    requires Narrowed(original, Answer(table, Request(original, limit)), |delivered|, rows)
    requires limit == 0 || |delivered| < limit
    requires Legal(table, Request(rows, if limit == 0 then 0 else limit - |delivered|), script)
    ensures OnTheWay(delivered, Drive(INITIAL, Flatten(script.responses), script.finish),
                     Answer(table, Request(original, limit)))
  {
    ResumedAnswer(table, original, limit, |delivered|, rows);
    var goal := Answer(table, Request(original, limit));
    assert delivered + goal[|delivered|..] == goal;
  }

  lemma {:induction false} AnswerFitsLimit(table: seq<Row>, request: Request)
    ensures request.rowsLimit != 0 ==> |Answer(table, request)| <= request.rowsLimit
  {
  }

  /** If no key is left to ask for, everything has been delivered. */
  lemma {:induction false} NothingLeft(table: seq<Row>, original: RowSet, limit: nat, n: nat, rows: RowSet)
    requires WellFormedRows(table, [])
    requires n <= |Answer(table, Request(original, limit))|
    requires Narrowed(original, Answer(table, Request(original, limit)), n, rows)
    requires forall k :: !rows.Denotes(k)
    ensures n == |Answer(table, Request(original, limit))|
  {
    MatchingAfter(table, original, rows, n, []);
    MatchingOfNothing(table, rows);
  }

  lemma {:induction false} MatchingOfNothing(table: seq<Row>, rows: RowSet)
    requires forall k :: !rows.Denotes(k)
    ensures Matching(table, rows) == []
  {
    if table != [] {
      MatchingOfNothing(table[1..], rows);
    }
  }

  lemma {:induction false} AnswerIsWellFormed(table: seq<Row>, request: Request)
    requires WellFormedRows(table, [])
    ensures WellFormedRows(Answer(table, request), [])
  {
    MatchingIsWellFormed(table, request.rows, []);
  }

  /**
   A server that encodes the answer, in whatever chunks and responses, and breaks off
   anywhere with an error status or sends everything, is legal.
   */
  lemma {:induction false} HonestServerIsLegal(
      table: seq<Row>, request: Request, chunks: seq<CellChunk>, sent: nat, script: Script)
    requires EncodesRows(Answer(table, request), NO_NAMES, [], chunks)
    requires sent <= |chunks| && Flatten(script.responses) == chunks[..sent]
    requires sent == |chunks| || script.finish != OK
    ensures Legal(table, request, script)
  {
    ParserInvertsEncoding(INITIAL, NO_NAMES, [], Answer(table, request), chunks);
    assert chunks == chunks[..sent] + chunks[sent..];
    RunOfPrefix(INITIAL, chunks[..sent], chunks[sent..]);
    assert sent == |chunks| ==> chunks[..sent] == chunks;
  }
}
