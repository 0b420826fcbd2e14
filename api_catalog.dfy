/** The APIs sheet reader: one record per row that names an API and its type,
    with defaults for a missing direction, SWC or task. */
module ApiCatalog {
  import opened Wrappers
  import opened Text
  import opened Sheet

  /** (api name, type reference, port direction, SWC name, task, init value) */
  datatype ApiEntry = ApiEntry(
    apiName: string, typeRef: string, portDir: string,
    swcName: string, task: string, initValue: Option<string>)

  datatype ApiColumns = ApiColumns(
    apiName: nat, typeRef: nat, portDir: nat, swcName: nat, task: nat, initValue: Option<nat>)

  /** The required column titles, in the order they are looked up. */
  const RequiredApiColumns: seq<string> := ["API Name", "Type Reference", "Port Direction", "SWC Name", "Task"]

  /** The columns; InitValue is optional, and the first missing required
      column is the error. */
  function ApiColumnsOf(header: Row): (r: Result<ApiColumns, ReadError>)
    ensures r.Success? <==> forall j :: 0 <= j < |RequiredApiColumns| ==> Some(RequiredApiColumns[j]) in header
    ensures r.Failure? ==> exists j :: (0 <= j < |RequiredApiColumns|
      && r.error == MissingColumn(RequiredApiColumns[j])
      && Some(RequiredApiColumns[j]) !in header
      && forall k :: 0 <= k < j ==> Some(RequiredApiColumns[k]) in header)
    ensures r.Success? ==>
      && GetCell(header, r.value.apiName) == Some("API Name")
      && GetCell(header, r.value.typeRef) == Some("Type Reference")
      && GetCell(header, r.value.portDir) == Some("Port Direction")
      && GetCell(header, r.value.swcName) == Some("SWC Name")
      && GetCell(header, r.value.task) == Some("Task")
      && (r.value.initValue.Some? <==> Some("InitValue") in header)
      && (r.value.initValue.Some? ==> GetCell(header, r.value.initValue.value) == Some("InitValue"))
  {
    match (ColumnIndex(header, "API Name"), ColumnIndex(header, "Type Reference"),
           ColumnIndex(header, "Port Direction"), ColumnIndex(header, "SWC Name"),
           ColumnIndex(header, "Task"))
    case (None, _, _, _, _) =>
      assert RequiredApiColumns[0] == "API Name";
      Failure(MissingColumn("API Name"))
    case (Some(_), None, _, _, _) =>
      assert RequiredApiColumns[1] == "Type Reference";
      Failure(MissingColumn("Type Reference"))
    case (Some(_), Some(_), None, _, _) =>
      assert RequiredApiColumns[2] == "Port Direction";
      Failure(MissingColumn("Port Direction"))
    case (Some(_), Some(_), Some(_), None, _) =>
      assert RequiredApiColumns[3] == "SWC Name";
      Failure(MissingColumn("SWC Name"))
    case (Some(_), Some(_), Some(_), Some(_), None) =>
      assert RequiredApiColumns[4] == "Task";
      Failure(MissingColumn("Task"))
    case (Some(a), Some(t), Some(p), Some(s), Some(k)) =>
      Success(ApiColumns(a, t, p, s, k, ColumnIndex(header, "InitValue")))
  }

  /** `safe_get_value`: the stripped cell text, None for an absent cell. */
  function SafeValue(row: Row, idx: Option<nat>): (r: Option<string>)
    ensures r.Some? ==> IsTrimmed(r.value)
  {
    if idx.None? then None
    else match GetCell(row, idx.value)
      case None => None
      case Some(v) => Some(Trim(v))
  }

  /** `value or default`: the default for an absent or empty value. */
  function OrDefault(v: Option<string>, default: string): (r: string)
    ensures Truthy(v) ==> r == v.value
    ensures !Truthy(v) ==> r == default
  {
    if Truthy(v) then v.value else default
  }

  /** A row with an API name and a type reference is read as a record;
      any other row is skipped. */
  function ApiOfRow(cols: ApiColumns, row: Row): Option<ApiEntry> {
    var nameCell := GetCell(row, cols.apiName);
    var typeCell := GetCell(row, cols.typeRef);
    if !Truthy(nameCell) || !Truthy(typeCell) then None
    else
      Some(ApiEntry(
        Trim(nameCell.value),
        Trim(typeCell.value),
        Upper(OrDefault(SafeValue(row, Some(cols.portDir)), "S")),
        OrDefault(SafeValue(row, Some(cols.swcName)), "DefaultSWC"),
        OrDefault(SafeValue(row, Some(cols.task)), "DefaultTask"),
        if cols.initValue.Some? then GetCell(row, cols.initValue.value) else None))
  }

  /** The row loop: the records of the rows that are kept, in row order. */
  function ApiRows(cols: ApiColumns, rows: seq<Row>): seq<ApiEntry> {
    if |rows| == 0 then []
    else
      var prefix := ApiRows(cols, rows[..|rows| - 1]);
      match ApiOfRow(cols, rows[|rows| - 1])
      case Some(e) => prefix + [e]
      case None => prefix
  }

  /** `_read_api_definitions`: a missing column fails before any row is read. */
  function ReadApis(header: Row, rows: seq<Row>): Result<seq<ApiEntry>, ReadError> {
    match ApiColumnsOf(header)
    case Failure(e) => Failure(e)
    case Success(cols) => Success(ApiRows(cols, rows))
  }

  method ReadApiDefinitions(header: Row, rows: seq<Row>) returns (r: Result<seq<ApiEntry>, ReadError>)
    ensures r == ReadApis(header, rows)
  {
    var colsOrError := ApiColumnsOf(header);
    if colsOrError.Failure? {
      return Failure(colsOrError.error);
    }
    var cols := colsOrError.value;
    var entries: seq<ApiEntry> := [];
    for i := 0 to |rows|
      invariant entries == ApiRows(cols, rows[..i])
    {
      assert rows[..i + 1][..i] == rows[..i];
      var row := rows[i];
      var nameCell := GetCell(row, cols.apiName);
      var typeCell := GetCell(row, cols.typeRef);
      if !Truthy(nameCell) || !Truthy(typeCell) {
        continue;
      }
      var apiName := Trim(nameCell.value);
      var typeRef := Trim(typeCell.value);
      var portDir := Upper(OrDefault(SafeValue(row, Some(cols.portDir)), "S"));
      var swcName := OrDefault(SafeValue(row, Some(cols.swcName)), "DefaultSWC");
      var task := OrDefault(SafeValue(row, Some(cols.task)), "DefaultTask");
      var initValue := if cols.initValue.Some? then GetCell(row, cols.initValue.value) else None;
      entries := entries + [ApiEntry(apiName, typeRef, portDir, swcName, task, initValue)];
    }
    assert rows[..|rows|] == rows;
    return Success(entries);
  }

  // ---------------------------------------------------------------------------
  // Properties

  /** Every record read has trimmed name and type, an upper-case direction,
      and a non-empty, trimmed SWC and task. */
  predicate DefaultFilled(e: ApiEntry) {
    && IsTrimmed(e.apiName) && IsTrimmed(e.typeRef)
    && e.portDir != "" && (forall i :: 0 <= i < |e.portDir| ==> !('a' <= e.portDir[i] <= 'z'))
    && e.swcName != "" && IsTrimmed(e.swcName)
    && e.task != "" && IsTrimmed(e.task)
  }

  /** A record built from a row has stripped texts, an upper-case non-empty
      direction and a non-empty SWC and task. */
  lemma ApiOfRowDefaultFilled(cols: ApiColumns, row: Row)
    requires ApiOfRow(cols, row).Some?
    ensures DefaultFilled(ApiOfRow(cols, row).value)
  {
  }

  /** Whatever the rows, every record the reader returns is default-filled. */
  lemma {:induction false} ReadApisDefaultFilled(header: Row, rows: seq<Row>)
    requires ReadApis(header, rows).Success?
    ensures forall i :: 0 <= i < |ReadApis(header, rows).value| ==> DefaultFilled(ReadApis(header, rows).value[i])
  {
    var cols := ApiColumnsOf(header).value;
    ApiRowsDefaultFilled(cols, rows);
  }

  lemma {:induction false} ApiRowsDefaultFilled(cols: ApiColumns, rows: seq<Row>)
    ensures forall i :: 0 <= i < |ApiRows(cols, rows)| ==> DefaultFilled(ApiRows(cols, rows)[i])
  {
    if |rows| > 0 {
      ApiRowsDefaultFilled(cols, rows[..|rows| - 1]);
      if ApiOfRow(cols, rows[|rows| - 1]).Some? {
        ApiOfRowDefaultFilled(cols, rows[|rows| - 1]);
      }
    }
  }

  /** Exactly the rows with both an API name and a type reference yield a
      record, so the reader returns one record per such row, in row order. */
  lemma {:induction false} ApiRowsCount(cols: ApiColumns, rows: seq<Row>)
    ensures |ApiRows(cols, rows)| == |KeptRows(cols, rows)|
    ensures forall i :: 0 <= i < |KeptRows(cols, rows)| ==>
      ApiOfRow(cols, KeptRows(cols, rows)[i]) == Some(ApiRows(cols, rows)[i])
  {
    if |rows| > 0 {
      ApiRowsCount(cols, rows[..|rows| - 1]);
    }
  }

  /** The rows that name both an API and its type. */
  function KeptRows(cols: ApiColumns, rows: seq<Row>): (r: seq<Row>)
    ensures forall i :: 0 <= i < |r| ==> Truthy(GetCell(r[i], cols.apiName)) && Truthy(GetCell(r[i], cols.typeRef))
  {
    if |rows| == 0 then []
    else
      var prefix := KeptRows(cols, rows[..|rows| - 1]);
      var row := rows[|rows| - 1];
      if Truthy(GetCell(row, cols.apiName)) && Truthy(GetCell(row, cols.typeRef)) then prefix + [row] else prefix
  }

  /** The value of each cell of a kept row: a direction, SWC or task cell
      with text after stripping is kept stripped (the direction upper-cased),
      and an absent or blank one takes its default; the init value is the raw
      cell under an InitValue column, and None without one. */
  lemma ApiOfRowValues(cols: ApiColumns, row: Row)
    requires ApiOfRow(cols, row).Some?
    ensures var e := ApiOfRow(cols, row).value;
      var d := GetCell(row, cols.portDir);
      var s := GetCell(row, cols.swcName);
      var t := GetCell(row, cols.task);
      && e.apiName == Trim(GetCell(row, cols.apiName).value)
      && e.typeRef == Trim(GetCell(row, cols.typeRef).value)
      && e.portDir == (if d.Some? && Trim(d.value) != "" then Upper(Trim(d.value)) else "S")
      && e.swcName == (if s.Some? && Trim(s.value) != "" then Trim(s.value) else "DefaultSWC")
      && e.task == (if t.Some? && Trim(t.value) != "" then Trim(t.value) else "DefaultTask")
      && e.initValue == (if cols.initValue.Some? then GetCell(row, cols.initValue.value) else None)
  {
    assert Upper("S") == "S";
  }

  /** A row with only a name and a type, its other cells absent or blank,
      gets direction "S", SWC "DefaultSWC" and task "DefaultTask", and no init
      value when the sheet has no InitValue column. */
  lemma DefaultsOfSparseRow(cols: ApiColumns, row: Row)
    requires ApiOfRow(cols, row).Some?
    requires GetCell(row, cols.portDir).None? || Trim(GetCell(row, cols.portDir).value) == ""
    requires GetCell(row, cols.swcName).None? || Trim(GetCell(row, cols.swcName).value) == ""
    requires GetCell(row, cols.task).None? || Trim(GetCell(row, cols.task).value) == ""
    ensures ApiOfRow(cols, row).value.portDir == "S"
    ensures ApiOfRow(cols, row).value.swcName == "DefaultSWC"
    ensures ApiOfRow(cols, row).value.task == "DefaultTask"
    ensures cols.initValue.None? ==> ApiOfRow(cols, row).value.initValue == None
  {
    ApiOfRowValues(cols, row);
  }

  /** A lower-case direction cell is read upper-cased: "r" gives an R-port. */
  lemma GivenDirectionUpperCased(cols: ApiColumns, row: Row)
    requires ApiOfRow(cols, row).Some?
    requires GetCell(row, cols.portDir) == Some(" r ")
    ensures ApiOfRow(cols, row).value.portDir == "R"
  {
    ApiOfRowValues(cols, row);
    assert Trim(" r ") == "r";
    assert Upper("r") == "R";
  }
}
