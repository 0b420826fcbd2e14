/** Sheet rows as the readers see them: a row is the sequence of its cell
    values, and a header row locates columns by their exact title. */
module Sheet {
  import opened Wrappers
  import opened OrderedMaps

  /** A sheet row as its cell values; a cell past the row's end reads as None. */
  type Row = seq<Option<string>>

  function GetCell(row: Row, idx: nat): Option<string> {
    if idx < |row| then row[idx] else None
  }

  datatype ReadError =
    | MissingColumn(column: string)
    | NoSuchType(name: string)  // the KeyError of a continuation row after a skipped name row

  /** The first column of the header holding exactly col, if any. */
  function ColumnIndex(header: Row, col: string): (r: Option<nat>)
    ensures r.None? <==> Some(col) !in header
    ensures r.Some? ==> r.value < |header| && header[r.value] == Some(col) && Some(col) !in header[..r.value]
  {
    if Some(col) in header then Some(FirstIndex(header, Some(col))) else None
  }
}
