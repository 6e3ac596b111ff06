/**
 The language of chunk streams, independently of how the parser works: cells in order,
 values and labels cut into any number of chunks, names left out when they repeat, and
 any number of rows given up with a reset. The parser accepts exactly this language, and
 takes from a stream exactly the rows that it encodes.
 */
module ReadRowsEncoding {
  import opened ByteStrings
  import opened Options
  import opened ReadRowsParsing

  // ----- cells

  /** The names in force before a cell; a chunk that leaves one out takes it over. */
  datatype Names = Names(row: Bytes, family: Bytes, column: Bytes)

  const NO_NAMES := Names([], [], [])

  /** The names in force after a cell, inside its row. */
  function NamesOf(cell: Cell): Names {
    Names(cell.rowKey, cell.family, cell.column)
  }

  function LastKey(chunks: seq<CellChunk>, before: Bytes): Bytes {
    if chunks == [] then before
    else
      var c := chunks[|chunks| - 1];
      if c.rowKey != [] then c.rowKey else LastKey(chunks[..|chunks| - 1], before)
  }

  function LastFamily(chunks: seq<CellChunk>, before: Bytes): Bytes {
    if chunks == [] then before
    else
      var c := chunks[|chunks| - 1];
      if c.family.Some? then c.family.value else LastFamily(chunks[..|chunks| - 1], before)
  }

  function LastColumn(chunks: seq<CellChunk>, before: Bytes): Bytes {
    if chunks == [] then before
    else
      var c := chunks[|chunks| - 1];
      if c.qualifier.Some? then c.qualifier.value else LastColumn(chunks[..|chunks| - 1], before)
  }

  function JoinValues(chunks: seq<CellChunk>): Bytes {
    if chunks == [] then [] else JoinValues(chunks[..|chunks| - 1]) + chunks[|chunks| - 1].value
  }

  function JoinLabels(chunks: seq<CellChunk>): seq<Bytes> {
    if chunks == [] then [] else JoinLabels(chunks[..|chunks| - 1]) + chunks[|chunks| - 1].labels
  }

  /** The cell that the chunks spell: the last names given, the first timestamp, all values and labels. */
  function Spelled(names: Names, chunks: seq<CellChunk>): Cell
    requires chunks != []
  {
    Cell(LastKey(chunks, names.row), LastFamily(chunks, names.family), LastColumn(chunks, names.column),
         chunks[0].timestamp, JoinValues(chunks), JoinLabels(chunks))
  }

  /** A key comes after the keys of all rows so far, and a family comes with a column. */
  predicate Proper(c: CellChunk, last: Bytes) {
    (c.rowKey == [] || Less(last, c.rowKey)) && (c.family.Some? ==> c.qualifier.Some?)
  }

  /** A chunk that is not the last one of its cell. */
  predicate Partial(c: CellChunk, last: Bytes) {
    Proper(c, last) && c.valueSize != 0 && c.rowStatus == Continues
  }

  /** The last chunk of a cell says that nothing follows, and what becomes of the row. */
  predicate EncodesCell(cell: Cell, names: Names, last: Bytes, closing: RowStatus, chunks: seq<CellChunk>) {
    && chunks != []
    && (forall i :: 0 <= i < |chunks| - 1 ==> Partial(chunks[i], last))
    && Proper(chunks[|chunks| - 1], last)
    && chunks[|chunks| - 1].valueSize == 0 && chunks[|chunks| - 1].rowStatus == closing
    && cell == Spelled(names, chunks) && cell.rowKey != []
  }

  // ----- rows

  /** The cells of one row; the chunk that ends the last cell commits or resets the row. */
  ghost predicate EncodesCells(
      cells: seq<Cell>, key: Bytes, names: Names, last: Bytes, closing: RowStatus, chunks: seq<CellChunk>)
    decreases |cells|, 1
  {
    && cells != [] && cells[0].rowKey == key
    && if |cells| == 1 then EncodesCell(cells[0], names, last, closing, chunks)
       else exists n :: FirstCellEndsAt(cells, key, names, last, closing, chunks, n)
  }

  ghost predicate FirstCellEndsAt(
      cells: seq<Cell>, key: Bytes, names: Names, last: Bytes, closing: RowStatus, chunks: seq<CellChunk>, n: int)
    requires |cells| > 1
    decreases |cells|, 0
  {
    && 0 < n < |chunks|
    && EncodesCell(cells[0], names, last, Continues, chunks[..n])
    && EncodesCells(cells[1..], key, NamesOf(cells[0]), last, closing, chunks[n..])
  }

  ghost predicate EncodesRow(row: Row, names: Names, last: Bytes, closing: RowStatus, chunks: seq<CellChunk>) {
    EncodesCells(row.cells, row.rowKey, names, last, closing, chunks)
  }

  /** Family and column, but not the key, stay in force after a committed row. */
  function NamesAfter(row: Row): Names
    requires row.cells != []
  {
    NamesOf(row.cells[|row.cells| - 1]).(row := [])
  }

  /** A stream of committed rows, and of rows that are given up. */
  ghost predicate EncodesRows(rows: seq<Row>, names: Names, last: Bytes, chunks: seq<CellChunk>)
    decreases |chunks|, 1
  {
    if chunks == [] then rows == []
    else
      || (rows != [] && exists n :: FirstRowEndsAt(rows, names, last, chunks, n))
      || (exists n, row :: AttemptEndsAt(rows, names, last, chunks, n, row))
  }

  ghost predicate FirstRowEndsAt(rows: seq<Row>, names: Names, last: Bytes, chunks: seq<CellChunk>, n: int)
    requires rows != []
    decreases |chunks|, 0
  {
    && 0 < n <= |chunks|
    && EncodesRow(rows[0], names, last, CommitRow, chunks[..n])
    && EncodesRows(rows[1..], NamesAfter(rows[0]), rows[0].rowKey, chunks[n..])
  }

  ghost predicate AttemptEndsAt(
      rows: seq<Row>, names: Names, last: Bytes, chunks: seq<CellChunk>, n: int, row: Row)
    decreases |chunks|, 0
  {
    && 0 < n <= |chunks|
    && EncodesRow(row, names, last, ResetRow, chunks[..n])
    && EncodesRows(rows, NO_NAMES, last, chunks[n..])
  }

  /** Rows as tables hold them: keys strictly increase, and every cell is in its row. */
  predicate WellFormedRows(rows: seq<Row>, last: Bytes) {
    && (forall i :: 0 <= i < |rows| ==> Less(last, rows[i].rowKey))
    && (forall i, j :: 0 <= i < j < |rows| ==> Less(rows[i].rowKey, rows[j].rowKey))
    && (forall i, j :: 0 <= i < |rows| && 0 <= j < |rows[i].cells| ==> rows[i].cells[j].rowKey == rows[i].rowKey)
  }

  // ----- the parser between rows and inside a cell

  function Carried(p: ParserState): Names {
    Names(p.cell.row, p.cell.family, p.cell.column)
  }

  /** A parser that is not at its end, and has no row that waits to be taken. */
  predicate Active(p: ParserState) {
    !p.endOfStream && !p.rowReady
  }

  predicate BetweenRows(p: ParserState, names: Names, last: Bytes) {
    && Active(p) && p.cellFirstChunk && p.cells == [] && p.cell.labels == []
    && names.row == [] && Carried(p) == names && p.lastSeenRowKey == last
  }

  /** The parser has seen the chunks `done` of a cell before which `names` were in force. */
  predicate Holds(p: ParserState, names: Names, done: seq<CellChunk>) {
    && Active(p)
    && (p.cellFirstChunk <==> done == [])
    && if done == [] then p.cell.labels == [] && Carried(p) == names
       else ToCell(p.cell) == Spelled(names, done)
  }

  function AfterCell(p: ParserState, cell: Cell, closing: RowStatus): ParserState {
    var q := p.(rowKey := cell.rowKey, cells := p.cells + [cell], cellFirstChunk := true,
                cell := ParseCell(cell.rowKey, cell.family, cell.column, cell.timestamp, [], []));
    match closing
    case Continues => q
    case ResetRow => q.(cells := [], cell := EMPTY_CELL)
    case CommitRow => q.(rowReady := true, lastSeenRowKey := cell.rowKey, cell := q.cell.(row := []))
  }

  /** The whole stream is taken, and its end as well. */
  predicate Accepts(p: ParserState, chunks: seq<CellChunk>) {
    var end := Run(p, chunks).end;
    end.Success? && AtEndOfStream(end.state).Success?
  }

  // ----- one cell

  lemma {:induction false} OneChunk(p: ParserState, names: Names, done: seq<CellChunk>, c: CellChunk)
    requires Holds(p, names, done)
    ensures ToCell(Absorb(p.cell, p.cellFirstChunk, c)) == Spelled(names, done + [c])
  {
    var more := done + [c];
    assert more[..|more| - 1] == done;
    if done == [] {
      assert JoinValues(more) == [] + c.value == c.value;
      assert JoinLabels(more) == [] + c.labels == p.cell.labels + c.labels;
    }
    var q := Absorb(p.cell, p.cellFirstChunk, c);
    assert q.row == LastKey(more, names.row);
    assert q.family == LastFamily(more, names.family);
    assert q.column == LastColumn(more, names.column);
    assert q.timestamp == more[0].timestamp;
    assert q.value == JoinValues(more);
    assert q.labels == JoinLabels(more);
  }

  /** What the parser does with the chunk that ends a cell. */
  lemma {:induction false} LastChunk(p: ParserState, names: Names, done: seq<CellChunk>, c: CellChunk)
    requires Holds(p, names, done) && Proper(c, p.lastSeenRowKey) && c.valueSize == 0
    requires var cell := Spelled(names, done + [c]);
             cell.rowKey != [] && (p.cells != [] ==> p.rowKey == cell.rowKey)
    ensures Handle(p, c) == Success(AfterCell(p, Spelled(names, done + [c]), c.rowStatus))
  {
    OneChunk(p, names, done, c);
  }

  lemma {:induction false} CellRun(
      p: ParserState, names: Names, done: seq<CellChunk>, chunks: seq<CellChunk>, cell: Cell, closing: RowStatus,
      rest: seq<CellChunk>)
    requires Holds(p, names, done) && chunks != []
    requires EncodesCell(cell, names, p.lastSeenRowKey, closing, done + chunks)
    requires p.cells != [] ==> p.rowKey == cell.rowKey
    ensures Run(p, chunks + rest) == Run(AfterCell(p, cell, closing), rest)
    decreases |chunks|
  {
    hide Spelled, AfterCell;
    var c := chunks[0];
    assert (done + chunks)[|done|] == c;
    assert (chunks + rest)[1..] == chunks[1..] + rest;
    OneChunk(p, names, done, c);
    if |chunks| == 1 {
      assert done + chunks == done + [c] && chunks[1..] + rest == rest;
      LastChunk(p, names, done, c);
    } else {
      assert (done + [c]) + chunks[1..] == done + chunks;
      var next := p.(cell := Absorb(p.cell, p.cellFirstChunk, c), cellFirstChunk := false);
      CellRun(next, names, done + [c], chunks[1..], cell, closing, rest);
      SameAfterCell(p, next, cell, closing);
    }
  }

  lemma {:induction false} SameAfterCell(p: ParserState, q: ParserState, cell: Cell, closing: RowStatus)
    requires q == p.(cell := q.cell, cellFirstChunk := q.cellFirstChunk)
    ensures AfterCell(p, cell, closing) == AfterCell(q, cell, closing)
  {
  }

  /** A stream that is accepted in the middle of a cell goes on with the rest of the cell. */
  lemma {:induction false} CellFound(p: ParserState, names: Names, done: seq<CellChunk>, chunks: seq<CellChunk>)
    returns (n: nat, cell: Cell, closing: RowStatus)
    requires Holds(p, names, done) && Accepts(p, chunks)
    requires forall i :: 0 <= i < |done| ==> Partial(done[i], p.lastSeenRowKey)
    requires (chunks != [] || done != []) && (p.cells != [] ==> p.rowKey != [])
    ensures 0 < n <= |chunks|
    ensures EncodesCell(cell, names, p.lastSeenRowKey, closing, done + chunks[..n])
    ensures p.cells != [] ==> p.rowKey == cell.rowKey
    decreases |chunks|
  {
    var c := chunks[0];
    OneChunk(p, names, done, c);
    if c.valueSize == 0 {
      n, cell, closing := 1, Spelled(names, done + [c]), c.rowStatus;
      assert done + chunks[..1] == done + [c];
      assert Proper(c, p.lastSeenRowKey);
    } else {
      var next := p.(cell := Absorb(p.cell, p.cellFirstChunk, c), cellFirstChunk := false);
      assert Handle(p, c) == Success(next);
      hide Spelled, Handle;
      n, cell, closing := CellFound(next, names, done + [c], chunks[1..]);
      assert (done + [c]) + chunks[1..][..n] == done + chunks[..n + 1];
      n := n + 1;
    }
  }

  // ----- one row

  function AfterRow(p: ParserState, cells: seq<Cell>, closing: RowStatus): ParserState
    requires cells != []
    decreases |cells|
  {
    if |cells| == 1 then AfterCell(p, cells[0], closing)
    else AfterRow(AfterCell(p, cells[0], Continues), cells[1..], closing)
  }

  lemma {:induction false} FirstCellRun(
      p: ParserState, cell: Cell, chunks: seq<CellChunk>, n: nat, rest: seq<CellChunk>)
    requires Holds(p, Carried(p), []) && 0 < n <= |chunks|
    requires EncodesCell(cell, Carried(p), p.lastSeenRowKey, Continues, chunks[..n])
    requires p.cells != [] ==> p.rowKey == cell.rowKey
    ensures Run(p, chunks + rest) == Run(AfterCell(p, cell, Continues), chunks[n..] + rest)
  {
    hide Run, AfterCell, EncodesCell;
    assert [] + chunks[..n] == chunks[..n];
    assert chunks + rest == chunks[..n] + (chunks[n..] + rest);
    CellRun(p, Carried(p), [], chunks[..n], cell, Continues, chunks[n..] + rest);
  }

  lemma {:induction false} RowRun(
      p: ParserState, cells: seq<Cell>, key: Bytes, closing: RowStatus, chunks: seq<CellChunk>, rest: seq<CellChunk>)
    requires Holds(p, Carried(p), [])
    requires EncodesCells(cells, key, Carried(p), p.lastSeenRowKey, closing, chunks)
    requires p.cells != [] ==> p.rowKey == key
    ensures Run(p, chunks + rest) == Run(AfterRow(p, cells, closing), rest)
    decreases |cells|
  {
    if |cells| == 1 {
      assert [] + chunks == chunks;
      CellRun(p, Carried(p), [], chunks, cells[0], closing, rest);
    } else {
      var n :| FirstCellEndsAt(cells, key, Carried(p), p.lastSeenRowKey, closing, chunks, n);
      FirstCellRun(p, cells[0], chunks, n, rest);
      RowRun(AfterCell(p, cells[0], Continues), cells[1..], key, closing, chunks[n..], rest);
    }
  }

  /** What a row leaves behind. */
  lemma {:induction false} AfterRowIs(p: ParserState, cells: seq<Cell>, key: Bytes, closing: RowStatus)
    requires Active(p) && cells != []
    requires forall i :: 0 <= i < |cells| ==> cells[i].rowKey == key
    ensures var q := AfterRow(p, cells, closing);
            && (closing == ResetRow ==> BetweenRows(q, NO_NAMES, p.lastSeenRowKey))
            && (closing == CommitRow ==>
                  && q.rowReady && q.rowKey == key && q.cells == p.cells + cells
                  && BetweenRows(TakeRow(q), NamesOf(cells[|cells| - 1]).(row := []), key))
    decreases |cells|
  {
    if |cells| == 1 {
      assert cells == [cells[0]];
    } else {
      AfterRowIs(AfterCell(p, cells[0], Continues), cells[1..], key, closing);
      assert p.cells + [cells[0]] + cells[1..] == p.cells + cells;
    }
  }

  lemma {:induction false} CellsHaveKey(
      cells: seq<Cell>, key: Bytes, names: Names, last: Bytes, closing: RowStatus, chunks: seq<CellChunk>)
    requires EncodesCells(cells, key, names, last, closing, chunks)
    ensures forall i :: 0 <= i < |cells| ==> cells[i].rowKey == key
    decreases |cells|
  {
    if |cells| > 1 {
      var n :| FirstCellEndsAt(cells, key, names, last, closing, chunks, n);
      CellsHaveKey(cells[1..], key, NamesOf(cells[0]), last, closing, chunks[n..]);
    }
  }

  lemma {:induction false} AcceptedGoesOn(p: ParserState, cell: Cell, chunks: seq<CellChunk>, n: nat)
    requires Holds(p, Carried(p), []) && 0 < n <= |chunks| && Accepts(p, chunks)
    requires EncodesCell(cell, Carried(p), p.lastSeenRowKey, Continues, chunks[..n])
    requires p.cells != [] ==> p.rowKey == cell.rowKey
    ensures var next := AfterCell(p, cell, Continues);
            && Accepts(next, chunks[n..]) && Holds(next, Carried(next), []) && Carried(next) == NamesOf(cell)
            && next.cells != [] && next.rowKey == cell.rowKey && next.lastSeenRowKey == p.lastSeenRowKey
  {
    FirstCellRun(p, cell, chunks, n, []);
    assert chunks + [] == chunks && chunks[n..] + [] == chunks[n..];
  }

  /** A stream that is accepted at the start of a cell goes on with the rest of the row. */
  lemma {:induction false} RowFound(p: ParserState, chunks: seq<CellChunk>)
    returns (n: nat, cells: seq<Cell>, key: Bytes, closing: RowStatus)
    requires Holds(p, Carried(p), []) && Accepts(p, chunks)
    requires (chunks != [] || p.cells != []) && (p.cells != [] ==> p.rowKey != [])
    ensures 0 < n <= |chunks| && closing != Continues
    ensures EncodesCells(cells, key, Carried(p), p.lastSeenRowKey, closing, chunks[..n])
    ensures p.cells != [] ==> p.rowKey == key
    decreases |chunks|
  {
    var cell;
    assert chunks != [];
    hide Run, AtEndOfStream;
    n, cell, closing := CellFound(p, Carried(p), [], chunks);
    assert [] + chunks[..n] == chunks[..n];
    key := cell.rowKey;
    if closing == Continues {
      AcceptedGoesOn(p, cell, chunks, n);
      hide EncodesCell;
      var m, rest, k;
      m, rest, k, closing := RowFound(AfterCell(p, cell, Continues), chunks[n..]);
      cells := [cell] + rest;
      RowGrows(cell, rest, key, Carried(p), p.lastSeenRowKey, closing, chunks, n, m);
      n := n + m;
    } else {
      cells := [cell];
    }
  }

  lemma {:induction false} RowGrows(
      cell: Cell, rest: seq<Cell>, key: Bytes, names: Names, last: Bytes, closing: RowStatus, chunks: seq<CellChunk>,
      n: nat, m: nat)
    requires 0 < n <= |chunks| && 0 < m <= |chunks| - n && cell.rowKey == key
    requires EncodesCell(cell, names, last, Continues, chunks[..n])
    requires EncodesCells(rest, key, NamesOf(cell), last, closing, chunks[n..][..m])
    ensures EncodesCells([cell] + rest, key, names, last, closing, chunks[..n + m])
  {
    hide EncodesCell;
    var cells, all := [cell] + rest, chunks[..n + m];
    assert all[..n] == chunks[..n] && all[n..] == chunks[n..][..m] && cells[1..] == rest;
    assert FirstCellEndsAt(cells, key, names, last, closing, all, n);
  }

  // ----- whole streams

  /** The parser inverts every encoding: same rows, same order, and no error at the end of the stream. */
  lemma {:induction false} ParserInvertsEncoding(
      p: ParserState, names: Names, last: Bytes, rows: seq<Row>, chunks: seq<CellChunk>)
    requires BetweenRows(p, names, last) && EncodesRows(rows, names, last, chunks)
    ensures Accepts(p, chunks) && Run(p, chunks).rows == rows
    decreases |chunks|
  {
    if chunks != [] {
      if n :| rows != [] && FirstRowEndsAt(rows, names, last, chunks, n) {
        var row := rows[0];
        CommittedRun(p, names, last, row, chunks, n);
        ParserInvertsEncoding(
          TakeRow(AfterRow(p, row.cells, CommitRow)), NamesAfter(row), row.rowKey, rows[1..], chunks[n..]);
      } else if n, row :| AttemptEndsAt(rows, names, last, chunks, n, row) {
        ResetRun(p, names, last, row, chunks, n);
        ParserInvertsEncoding(AfterRow(p, row.cells, ResetRow), NO_NAMES, last, rows, chunks[n..]);
      }
    }
  }

  lemma {:induction false} CommittedRun(
      p: ParserState, names: Names, last: Bytes, row: Row, chunks: seq<CellChunk>, n: nat)
    requires BetweenRows(p, names, last) && n <= |chunks|
    requires EncodesRow(row, names, last, CommitRow, chunks[..n])
    ensures row.cells != []
    ensures var q := TakeRow(AfterRow(p, row.cells, CommitRow));
            && BetweenRows(q, NamesAfter(row), row.rowKey)
            && Run(p, chunks) == Parse([row] + Run(q, chunks[n..]).rows, Run(q, chunks[n..]).end)
  {
    assert chunks == chunks[..n] + chunks[n..];
    RowRun(p, row.cells, row.rowKey, CommitRow, chunks[..n], chunks[n..]);
    CellsHaveKey(row.cells, row.rowKey, names, last, CommitRow, chunks[..n]);
    AfterRowIs(p, row.cells, row.rowKey, CommitRow);
    var ready := AfterRow(p, row.cells, CommitRow);
    assert Row(ready.rowKey, ready.cells) == row;
  }

  lemma {:induction false} ResetRun(
      p: ParserState, names: Names, last: Bytes, row: Row, chunks: seq<CellChunk>, n: nat)
    requires BetweenRows(p, names, last) && n <= |chunks|
    requires EncodesRow(row, names, last, ResetRow, chunks[..n])
    ensures row.cells != []
    ensures var q := AfterRow(p, row.cells, ResetRow);
            BetweenRows(q, NO_NAMES, last) && Run(p, chunks) == Run(q, chunks[n..])
  {
    assert chunks == chunks[..n] + chunks[n..];
    RowRun(p, row.cells, row.rowKey, ResetRow, chunks[..n], chunks[n..]);
    CellsHaveKey(row.cells, row.rowKey, names, last, ResetRow, chunks[..n]);
    AfterRowIs(p, row.cells, row.rowKey, ResetRow);
  }

  /** The converse: whatever the parser accepts is an encoding of the rows it delivers. */
  lemma {:induction false} AcceptedIsEncoding(p: ParserState, names: Names, last: Bytes, chunks: seq<CellChunk>)
    requires BetweenRows(p, names, last) && Accepts(p, chunks)
    ensures EncodesRows(Run(p, chunks).rows, names, last, chunks)
    decreases |chunks|
  {
    if chunks != [] {
      var n, cells, key, closing := RowFound(p, chunks);
      var row := Row(key, cells);
      assert EncodesRow(row, names, last, closing, chunks[..n]);
      hide EncodesRow, AtEndOfStream;
      if closing == CommitRow {
        CommittedRun(p, names, last, row, chunks, n);
        var q := TakeRow(AfterRow(p, row.cells, CommitRow));
        AcceptedIsEncoding(q, NamesAfter(row), key, chunks[n..]);
        var rows := Run(p, chunks).rows;
        assert rows[0] == row && rows[1..] == Run(q, chunks[n..]).rows;
        assert FirstRowEndsAt(rows, names, last, chunks, n);
      } else {
        ResetRun(p, names, last, row, chunks, n);
        AcceptedIsEncoding(AfterRow(p, row.cells, ResetRow), NO_NAMES, last, chunks[n..]);
        assert AttemptEndsAt(Run(p, chunks).rows, names, last, chunks, n, row);
      }
    }
  }

  /** The parser accepts a stream and takes `rows` from it if and only if the stream encodes `rows`. */
  lemma {:induction false} ParserIsExact(rows: seq<Row>, chunks: seq<CellChunk>)
    ensures Accepts(INITIAL, chunks) && Run(INITIAL, chunks).rows == rows <==>
            EncodesRows(rows, NO_NAMES, [], chunks)
  {
    if Accepts(INITIAL, chunks) {
      AcceptedIsEncoding(INITIAL, NO_NAMES, [], chunks);
    }
    if EncodesRows(rows, NO_NAMES, [], chunks) {
      ParserInvertsEncoding(INITIAL, NO_NAMES, [], rows, chunks);
    }
  }

  // ----- every stream, accepted or not

  /** Keys that have been seen come after the last row, and the cells of a row have its key. */
  predicate Orderly(p: ParserState) {
    && !p.rowReady
    && (p.cell.row == [] || Less(p.lastSeenRowKey, p.cell.row))
    && (p.cells != [] ==> Less(p.lastSeenRowKey, p.rowKey))
    && forall j :: 0 <= j < |p.cells| ==> p.cells[j].rowKey == p.rowKey
  }

  /** The rows of any stream have increasing keys, whether or not the stream is accepted. */
  lemma {:induction false} RowsAreWellFormed(p: ParserState, chunks: seq<CellChunk>)
    requires Orderly(p)
    ensures WellFormedRows(Run(p, chunks).rows, p.lastSeenRowKey)
    decreases |chunks|
  {
    if chunks != [] && Handle(p, chunks[0]).Success? {
      var q := Handle(p, chunks[0]).state;
      ChunkKeepsOrder(p, chunks[0]);
      hide Handle, Less;
      if q.rowReady {
        RowsAreWellFormed(TakeRow(q), chunks[1..]);
        MoreRows(Row(q.rowKey, q.cells), Run(TakeRow(q), chunks[1..]).rows, p.lastSeenRowKey);
      } else {
        RowsAreWellFormed(q, chunks[1..]);
      }
    }
  }

  lemma {:induction false} ChunkKeepsOrder(p: ParserState, c: CellChunk)
    requires Orderly(p) && Handle(p, c).Success?
    ensures var q := Handle(p, c).state;
            if q.rowReady then
              && Less(p.lastSeenRowKey, q.rowKey) && q.lastSeenRowKey == q.rowKey && Orderly(TakeRow(q))
              && forall j :: 0 <= j < |q.cells| ==> q.cells[j].rowKey == q.rowKey
            else Orderly(q) && q.lastSeenRowKey == p.lastSeenRowKey
  {
    hide Less;
  }

  lemma {:induction false} MoreRows(row: Row, rows: seq<Row>, last: Bytes)
    requires Less(last, row.rowKey) && WellFormedRows(rows, row.rowKey)
    requires forall j :: 0 <= j < |row.cells| ==> row.cells[j].rowKey == row.rowKey
    ensures WellFormedRows([row] + rows, last)
  {
    StrictTotalOrder();
  }

  /** Errors have the code 13. A parser refuses chunks while a row waits, and everything after its end. */
  lemma {:induction false} RefusalsAreInternal(p: ParserState, c: CellChunk)
    ensures Handle(p, c).Failure? ==> Handle(p, c).status == 13
    ensures AtEndOfStream(p).Failure? ==> AtEndOfStream(p).status == 13
    ensures p.rowReady ==> Handle(p, c).Failure?
    ensures AtEndOfStream(p).Success? ==>
              Handle(AtEndOfStream(p).state, c).Failure? && AtEndOfStream(AtEndOfStream(p).state).Failure?
  {
  }

  /** What a stream cut short produces is a prefix of what the whole stream produces. */
  lemma {:induction false} RunOfPrefix(p: ParserState, chunks: seq<CellChunk>, rest: seq<CellChunk>)
    ensures Run(p, chunks).rows <= Run(p, chunks + rest).rows
    ensures Run(p, chunks).end.Failure? ==> Run(p, chunks + rest) == Run(p, chunks)
    decreases |chunks|, p.rowReady
  {
    if p.rowReady {
      RunOfPrefix(TakeRow(p), chunks, rest);
    } else if chunks != [] {
      assert (chunks + rest)[1..] == chunks[1..] + rest;
      var next := Handle(p, chunks[0]);
      if next.Success? {
        RunOfPrefix(next.state, chunks[1..], rest);
      }
    }
  }

  // ----- the plainest encoding: one chunk for each cell

  function EncodeCell(cell: Cell, commit: bool): CellChunk {
    CellChunk(cell.rowKey, Some(cell.family), Some(cell.column), cell.timestamp, cell.labels, cell.value, 0,
              if commit then CommitRow else Continues)
  }

  function EncodeCells(cells: seq<Cell>): seq<CellChunk> {
    if cells == [] then [] else [EncodeCell(cells[0], |cells| == 1)] + EncodeCells(cells[1..])
  }

  function EncodeRows(rows: seq<Row>): seq<CellChunk> {
    if rows == [] then [] else EncodeCells(rows[0].cells) + EncodeRows(rows[1..])
  }

  lemma {:induction false} EncodeCellEncodes(cell: Cell, names: Names, last: Bytes, commit: bool)
    requires Less(last, cell.rowKey)
    ensures EncodesCell(cell, names, last, if commit then CommitRow else Continues, [EncodeCell(cell, commit)])
  {
    var c := EncodeCell(cell, commit);
    assert [c][..|[c]| - 1] == [];
    assert JoinValues([]) == [] && JoinLabels([]) == [];
  }

  lemma {:induction false} EncodeCellsEncodes(cells: seq<Cell>, key: Bytes, names: Names, last: Bytes)
    requires cells != [] && Less(last, key)
    requires forall i :: 0 <= i < |cells| ==> cells[i].rowKey == key
    ensures EncodeCells(cells) != [] && EncodesCells(cells, key, names, last, CommitRow, EncodeCells(cells))
    decreases |cells|
  {
    hide EncodesCell;
    var chunks := EncodeCells(cells);
    EncodeCellEncodes(cells[0], names, last, |cells| == 1);
    if |cells| == 1 {
      assert chunks == [EncodeCell(cells[0], true)];
    } else {
      EncodeCellsEncodes(cells[1..], key, NamesOf(cells[0]), last);
      assert chunks[..1] == [EncodeCell(cells[0], false)] && chunks[1..] == EncodeCells(cells[1..]);
      assert FirstCellEndsAt(cells, key, names, last, CommitRow, chunks, 1);
    }
  }

  /** Every list of rows with cells has an encoding. */
  lemma {:induction false} EncodeRowsEncodes(rows: seq<Row>, names: Names, last: Bytes)
    requires WellFormedRows(rows, last) && forall i :: 0 <= i < |rows| ==> rows[i].cells != []
    ensures EncodesRows(rows, names, last, EncodeRows(rows))
    decreases |rows|
  {
    if rows != [] {
      hide EncodesCells;
      var first, rest := EncodeCells(rows[0].cells), EncodeRows(rows[1..]);
      EncodeCellsEncodes(rows[0].cells, rows[0].rowKey, names, last);
      EncodeRowsEncodes(rows[1..], NamesAfter(rows[0]), rows[0].rowKey);
      assert (first + rest)[..|first|] == first && (first + rest)[|first|..] == rest;
      assert FirstRowEndsAt(rows, names, last, first + rest, |first|);
    }
  }

  /** Round trip: what the plainest server sends for a table is parsed back into the table. */
  lemma {:induction false} ParseOfEncode(rows: seq<Row>)
    requires WellFormedRows(rows, []) && forall i :: 0 <= i < |rows| ==> rows[i].cells != []
    ensures Accepts(INITIAL, EncodeRows(rows)) && Run(INITIAL, EncodeRows(rows)).rows == rows
  {
    EncodeRowsEncodes(rows, NO_NAMES, []);
    ParserInvertsEncoding(INITIAL, NO_NAMES, [], rows, EncodeRows(rows));
  }
}
