/**
 The ReadRows chunk parser. `ReadRowsParser` is the object with its fields; `Handle`,
 `TakeRow` and `AtEndOfStream` are the transitions of its state, and `Run` is the
 rows that a whole sequence of chunks produces.
 */
module ReadRowsParsing {
  import opened ByteStrings
  import opened Options

  /** gRPC status codes; messages are not modelled. */
  type Status = nat
  const OK: Status := 0
  const CANCELLED: Status := 1
  const DEADLINE_EXCEEDED: Status := 4
  const ABORTED: Status := 10
  const INTERNAL: Status := 13
  const UNAVAILABLE: Status := 14

  datatype Cell = Cell(rowKey: Bytes, family: Bytes, column: Bytes, timestamp: int, value: Bytes, labels: seq<Bytes>)
  datatype Row = Row(rowKey: Bytes, cells: seq<Cell>)

  datatype RowStatus = Continues | ResetRow | CommitRow

  /** One `ReadRowsResponse_CellChunk`. A non-zero `valueSize` says that the cell goes on. */
  datatype CellChunk = CellChunk(
    rowKey: Bytes, family: Option<Bytes>, qualifier: Option<Bytes>, timestamp: int,
    labels: seq<Bytes>, value: Bytes, valueSize: int, rowStatus: RowStatus)

  /** The fields of the cell being put together. */
  datatype ParseCell = ParseCell(
    row: Bytes, family: Bytes, column: Bytes, timestamp: int, value: Bytes, labels: seq<Bytes>)

  const EMPTY_CELL := ParseCell([], [], [], 0, [], [])

  datatype ParserState = ParserState(
    rowKey: Bytes, cells: seq<Cell>, cellFirstChunk: bool, cell: ParseCell,
    lastSeenRowKey: Bytes, rowReady: bool, endOfStream: bool)

  datatype Result = Success(state: ParserState) | Failure(status: Status)

  const INITIAL := ParserState([], [], true, EMPTY_CELL, [], false, false)

  function ToCell(c: ParseCell): Cell {
    Cell(c.row, c.family, c.column, c.timestamp, c.value, c.labels)
  }

  /** The partial cell after the fields of a chunk are taken over. */
  function Absorb(cell: ParseCell, first: bool, c: CellChunk): ParseCell {
    ParseCell(
      if c.rowKey != [] then c.rowKey else cell.row,
      if c.family.Some? then c.family.value else cell.family,
      if c.qualifier.Some? then c.qualifier.value else cell.column,
      if first then c.timestamp else cell.timestamp,
      if first then c.value else cell.value + c.value,
      cell.labels + c.labels)
  }

  /** The end of `HandleChunk`: reset or commit the row. */
  function CloseRow(p: ParserState, status: RowStatus): Result {
    match status
    case Continues => Success(p)
    case ResetRow =>
      if !p.cellFirstChunk then Failure(INTERNAL)
      else Success(p.(cells := [], cell := EMPTY_CELL))
    case CommitRow =>
      if !p.cellFirstChunk || p.cells == [] then Failure(INTERNAL)
      else Success(p.(rowReady := true, lastSeenRowKey := p.rowKey, cell := p.cell.(row := [])))
  }

  /** `HandleChunk`. */
  function Handle(p: ParserState, c: CellChunk): Result {
    if p.endOfStream || p.rowReady then Failure(INTERNAL)
    else if c.rowKey != [] && !Less(p.lastSeenRowKey, c.rowKey) then Failure(INTERNAL)
    else if c.family.Some? && c.qualifier.None? then Failure(INTERNAL)
    else
      var cell := Absorb(p.cell, p.cellFirstChunk, c);
      if c.valueSize != 0 then
        CloseRow(p.(cell := cell, cellFirstChunk := false), c.rowStatus)
      else if p.cells == [] && cell.row == [] then Failure(INTERNAL)
      else if p.cells != [] && p.rowKey != cell.row then Failure(INTERNAL)
      else
        CloseRow(
          p.(rowKey := cell.row, cells := p.cells + [ToCell(cell)], cellFirstChunk := true,
             cell := cell.(value := [], labels := [])),
          c.rowStatus)
  }

  /** `Next` on a parser with a row ready. */
  function TakeRow(p: ParserState): ParserState {
    p.(rowReady := false, rowKey := [], cells := [])
  }

  /** `HandleEndOfStream`. */
  function AtEndOfStream(p: ParserState): Result {
    if p.endOfStream || !p.cellFirstChunk || (p.cells != [] && !p.rowReady) then Failure(INTERNAL)
    else Success(p.(endOfStream := true))
  }

  datatype Parse = Parse(rows: seq<Row>, end: Result)

  /** Feeds all chunks, taking each row as soon as it is ready. */
  function Run(p: ParserState, chunks: seq<CellChunk>): Parse
    decreases |chunks|, p.rowReady
  {
    if p.rowReady then
      var rest := Run(TakeRow(p), chunks);
      rest.(rows := [Row(p.rowKey, p.cells)] + rest.rows)
    else if chunks == [] then Parse([], Success(p))
    else
      match Handle(p, chunks[0])
      case Failure(s) => Parse([], Failure(s))
      case Success(q) => Run(q, chunks[1..])
  }

  /** The parser object. After an error its state is undefined, as documented. */
  class ReadRowsParser {
    var rowKey: Bytes
    var cells: seq<Cell>
    var cellFirstChunk: bool
    var cell: ParseCell
    var lastSeenRowKey: Bytes
    var rowReady: bool
    var endOfStream: bool

    ghost function State(): ParserState
      reads this
    {
      ParserState(rowKey, cells, cellFirstChunk, cell, lastSeenRowKey, rowReady, endOfStream)
    }

    constructor ()
      ensures State() == INITIAL
    {
      rowKey, cells, cellFirstChunk, cell := [], [], true, EMPTY_CELL;
      lastSeenRowKey, rowReady, endOfStream := [], false, false;
    }

    predicate HasNext()
      reads this
    {
      rowReady
    }

    /** The part of `HandleChunk` that takes over the fields of a chunk. */
    method AbsorbChunk(chunk: CellChunk)
      modifies `cell
      ensures cell == Absorb(old(cell), cellFirstChunk, chunk)
    {
      if chunk.rowKey != [] {
        cell := cell.(row := chunk.rowKey);
      }
      if chunk.family.Some? {
        cell := cell.(family := chunk.family.value);
      }
      if chunk.qualifier.Some? {
        cell := cell.(column := chunk.qualifier.value);
      }
      if cellFirstChunk {
        cell := cell.(timestamp := chunk.timestamp);
      }
      cell := cell.(labels := cell.labels + chunk.labels);
      if cellFirstChunk {
        cell := cell.(value := chunk.value);
      } else {
        cell := cell.(value := cell.value + chunk.value);
      }
    }

    method HandleChunk(chunk: CellChunk) returns (status: Status)
      modifies this
      ensures status == OK ==> Handle(old(State()), chunk) == Success(State())
      ensures status != OK ==> Handle(old(State()), chunk) == Failure(status)
    {
      hide Less, ToCell, Absorb;
      if endOfStream {
        return INTERNAL;
      }
      if HasNext() {
        return INTERNAL;
      }
      if chunk.rowKey != [] && !Less(lastSeenRowKey, chunk.rowKey) {
        return INTERNAL;
      }
      if chunk.family.Some? && chunk.qualifier.None? {
        return INTERNAL;
      }
      AbsorbChunk(chunk);
      cellFirstChunk := false;
      if chunk.valueSize == 0 {
        if cells == [] {
          if cell.row == [] {
            return INTERNAL;
          }
          rowKey := cell.row;
        } else if rowKey != cell.row {
          return INTERNAL;
        }
        cells := cells + [ToCell(cell)];
        cell := cell.(value := [], labels := []);
        cellFirstChunk := true;
      }
      if chunk.rowStatus.ResetRow? {
        cells := [];
        cell := EMPTY_CELL;
        if !cellFirstChunk {
          return INTERNAL;
        }
      } else if chunk.rowStatus.CommitRow? {
        if !cellFirstChunk {
          return INTERNAL;
        }
        if cells == [] {
          return INTERNAL;
        }
        rowReady := true;
        lastSeenRowKey := rowKey;
        cell := cell.(row := []);
      }
      return OK;
    }

    method HandleEndOfStream() returns (status: Status)
      modifies this
      ensures status == OK ==> AtEndOfStream(old(State())) == Success(State())
      ensures status != OK ==> AtEndOfStream(old(State())) == Failure(status)
    {
      if endOfStream {
        return INTERNAL;
      }
      endOfStream := true;
      if !cellFirstChunk {
        return INTERNAL;
      }
      if cells != [] && !rowReady {
        return INTERNAL;
      }
      return OK;
    }

    method Next() returns (row: Row, status: Status)
      modifies this
      ensures old(rowReady) ==> status == OK && row == Row(old(rowKey), old(cells)) && State() == TakeRow(old(State()))
      ensures !old(rowReady) ==> status == INTERNAL && State() == old(State())
    {
      if !rowReady {
        return Row([], []), INTERNAL;
      }
      rowReady := false;
      row := Row(rowKey, cells);
      cells, rowKey := [], [];
      status := OK;
    }
  }
}
