/** The Types sheet reader: a header that locates the Name, Category,
    Field Name and Definition columns, then a row loop with a cursor on the
    type being defined. A row with a name starts a type; a row without one
    continues the type under the cursor. */
module TypeCatalog {
  import opened Wrappers
  import opened Text
  import opened OrderedMaps
  import opened TypeModel
  import opened Sheet

  // ---------------------------------------------------------------------------
  // Header

  datatype TypeColumns = TypeColumns(name: nat, category: nat, fieldName: nat, definition: nat)

  /** The column titles, in the order they are looked up. */
  const RequiredTypeColumns: seq<string> := ["Name", "Category", "Field Name", "Definition"]

  /** The four columns, looked up in order; the first one missing is the error. */
  function TypeColumnsOf(header: Row): (r: Result<TypeColumns, ReadError>)
    ensures r.Success? <==>
      Some("Name") in header && Some("Category") in header &&
      Some("Field Name") in header && Some("Definition") in header
    ensures r.Failure? ==> exists j :: (0 <= j < |RequiredTypeColumns|
      && r.error == MissingColumn(RequiredTypeColumns[j])
      && Some(RequiredTypeColumns[j]) !in header
      && forall k :: 0 <= k < j ==> Some(RequiredTypeColumns[k]) in header)
    ensures r.Success? ==>
      && GetCell(header, r.value.name) == Some("Name")
      && GetCell(header, r.value.category) == Some("Category")
      && GetCell(header, r.value.fieldName) == Some("Field Name")
      && GetCell(header, r.value.definition) == Some("Definition")
  {
    match (ColumnIndex(header, "Name"), ColumnIndex(header, "Category"),
           ColumnIndex(header, "Field Name"), ColumnIndex(header, "Definition"))
    case (None, _, _, _) =>
      assert RequiredTypeColumns[0] == "Name";
      Failure(MissingColumn("Name"))
    case (Some(_), None, _, _) =>
      assert RequiredTypeColumns[1] == "Category";
      Failure(MissingColumn("Category"))
    case (Some(_), Some(_), None, _) =>
      assert RequiredTypeColumns[2] == "Field Name";
      Failure(MissingColumn("Field Name"))
    case (Some(_), Some(_), Some(_), None) =>
      assert RequiredTypeColumns[3] == "Definition";
      Failure(MissingColumn("Definition"))
    case (Some(n), Some(c), Some(f), Some(d)) => Success(TypeColumns(n, c, f, d))
  }

  /** `has_field_name_col`: the header row's own Field Name cell is present. */
  predicate HasFieldNameColumn(header: Row, cols: TypeColumns) {
    GetCell(header, cols.fieldName).Some?
  }

  /** Once the header is accepted the Field Name column is always there, so
      the one-column legacy layout is never taken. */
  lemma FieldNameColumnAlwaysPresent(header: Row)
    requires TypeColumnsOf(header).Success?
    ensures HasFieldNameColumn(header, TypeColumnsOf(header).value)
  {
  }

  // ---------------------------------------------------------------------------
  // Row loop

  /** The loop's state: `current_type` ("" standing for None, which behaves
      the same since only its truthiness and its value when truthy are used)
      and the `types` dict. */
  datatype ReadState = ReadState(current: string, types: Catalog)

  /** The category cell as text, stripped and lower-cased; an empty cell reads "none". */
  function CategoryOf(cat: Option<string>): string {
    Lower(Trim(CellText(cat)))
  }

  /** A `basic` row whose definition is, ignoring case, its own name. */
  predicate IsSelfReference(name: string, cat: Option<string>, defn: Option<string>) {
    Truthy(cat) && CategoryOf(cat) == "basic" && Truthy(defn) &&
    Lower(Trim(defn.value)) == Lower(name)
  }

  /** The entries a name row stores with its type. */
  function NameRowDefs(category: string, hasField: bool, fieldName: Option<string>, defn: Option<string>): seq<Entry> {
    if category == "struct" && hasField then
      if Truthy(fieldName) && Truthy(defn) then [Field(Trim(fieldName.value), Trim(defn.value))] else []
    else if category == "array" && Truthy(defn) then [Plain(Trim(defn.value))]
    else []
  }

  /** What one row does to the loop's state, as read from its cells alone. */
  datatype RowAction =
    | StartType(name: string, def: Option<TypeDef>)  // None: a skipped self-reference
    | AppendEntry(e: Entry)                         // a continuation row
    | Ignore

  /** The branch of the row loop a row takes. */
  function ClassifyTypeRow(cols: TypeColumns, hasField: bool, row: Row): RowAction {
    var name := GetCell(row, cols.name);
    var cat := GetCell(row, cols.category);
    var fieldName := GetCell(row, cols.fieldName);
    var defn := GetCell(row, cols.definition);
    if Truthy(name) then
      var cur := Trim(name.value);
      if IsSelfReference(cur, cat, defn) then StartType(cur, None)
      else
        var category := CategoryOf(cat);
        StartType(cur, Some(TypeDef(category, NameRowDefs(category, hasField, fieldName, defn))))
    else if Truthy(fieldName) && Truthy(defn) && hasField then
      AppendEntry(Field(Trim(fieldName.value), Trim(defn.value)))
    else if Truthy(defn) && !hasField then
      AppendEntry(Plain(Trim(defn.value)))
    else Ignore
  }

  function ClassifyTypeRows(cols: TypeColumns, hasField: bool, rows: seq<Row>): (r: seq<RowAction>)
    ensures |r| == |rows|
    ensures forall i :: 0 <= i < |rows| ==> r[i] == ClassifyTypeRow(cols, hasField, rows[i])
  {
    if |rows| == 0 then []
    else ClassifyTypeRows(cols, hasField, rows[..|rows| - 1]) + [ClassifyTypeRow(cols, hasField, rows[|rows| - 1])]
  }

  /** Appends e to the definitions of the type under the cursor; the lookup
      fails when the cursor names a type that was never entered. */
  function AppendToCurrent(st: ReadState, e: Entry): Result<ReadState, ReadError> {
    if st.current in st.types then
      var d := st.types[st.current];
      Success(st.(types := st.types[st.current := d.(defs := d.defs + [e])]))
    else Failure(NoSuchType(st.current))
  }

  /** One iteration of the row loop. A continuation row needs a cursor. */
  function ApplyRowAction(st: ReadState, a: RowAction): Result<ReadState, ReadError> {
    match a
    case StartType(name, None) => Success(st.(current := name))
    case StartType(name, Some(d)) => Success(ReadState(name, st.types[name := d]))
    case AppendEntry(e) => if st.current != "" then AppendToCurrent(st, e) else Success(st)
    case Ignore => Success(st)
  }

  function TypeRowStep(cols: TypeColumns, hasField: bool, st: ReadState, row: Row): Result<ReadState, ReadError> {
    ApplyRowAction(st, ClassifyTypeRow(cols, hasField, row))
  }

  /** The row loop over a run of actions from state st; the first error stops it. */
  function RunRowActions(st: ReadState, acts: seq<RowAction>): Result<ReadState, ReadError> {
    if |acts| == 0 then Success(st)
    else
      match RunRowActions(st, acts[..|acts| - 1])
      case Failure(e) => Failure(e)
      case Success(st') => ApplyRowAction(st', acts[|acts| - 1])
  }

  /** The row loop from no cursor and no types. */
  function ReadTypeRows(cols: TypeColumns, hasField: bool, rows: seq<Row>): Result<ReadState, ReadError> {
    RunRowActions(ReadState("", map[]), ClassifyTypeRows(cols, hasField, rows))
  }

  /** Running two batches of rows is running their concatenation. */
  lemma {:induction false} RunRowActionsAppend(st: ReadState, a: seq<RowAction>, b: seq<RowAction>)
    requires RunRowActions(st, a).Success?
    ensures RunRowActions(st, a + b) == RunRowActions(RunRowActions(st, a).value, b)
  {
    if |b| == 0 {
      assert a + b == a;
    } else {
      assert (a + b)[..|a + b| - 1] == a + b[..|b| - 1];
      assert (a + b)[|a + b| - 1] == b[|b| - 1];
      RunRowActionsAppend(st, a, b[..|b| - 1]);
    }
  }

  lemma ClassifyTypeRowsAppend(cols: TypeColumns, hasField: bool, a: seq<Row>, b: seq<Row>)
    ensures ClassifyTypeRows(cols, hasField, a + b) == ClassifyTypeRows(cols, hasField, a) + ClassifyTypeRows(cols, hasField, b)
  {
  }

  // ---------------------------------------------------------------------------
  // What the row loop does

  /** A blank-name row whose Field Name and Definition cells both hold text,
      read as the field e it contributes. */
  predicate IsContinuationRow(cols: TypeColumns, row: Row, e: Entry) {
    var fieldName := GetCell(row, cols.fieldName);
    var defn := GetCell(row, cols.definition);
    && !Truthy(GetCell(row, cols.name))
    && Truthy(fieldName) && Truthy(defn)
    && e == Field(Trim(fieldName.value), Trim(defn.value))
  }

  /** A row with a name moves the cursor to the trimmed name. Unless it is a
      `basic` self-reference, it (re)defines that name with the row's category
      and at most the one entry the row itself carries, and leaves every
      other name as it was; a self-reference defines nothing. */
  lemma NameRowStartsType(cols: TypeColumns, hasField: bool, st: ReadState, row: Row)
    requires Truthy(GetCell(row, cols.name))
    ensures var r := TypeRowStep(cols, hasField, st, row);
      && r.Success?
      && r.value.current == Trim(GetCell(row, cols.name).value)
      && (forall t :: t != r.value.current ==> (t in r.value.types <==> t in st.types))
      && (forall t :: t in st.types && t != r.value.current ==> r.value.types[t] == st.types[t])
      && var cat := GetCell(row, cols.category);
         var defn := GetCell(row, cols.definition);
         if IsSelfReference(r.value.current, cat, defn) then r.value.types == st.types
         else
           && r.value.current in r.value.types
           && r.value.types[r.value.current].category == CategoryOf(cat)
           && |r.value.types[r.value.current].defs| <= 1
  {
    var cur := Trim(GetCell(row, cols.name).value);
    var cat := GetCell(row, cols.category);
    var defn := GetCell(row, cols.definition);
    var a := ClassifyTypeRow(cols, hasField, row);
    if IsSelfReference(cur, cat, defn) {
      assert a == StartType(cur, None);
    } else {
      var defs := NameRowDefs(CategoryOf(cat), hasField, GetCell(row, cols.fieldName), defn);
      assert |defs| <= 1;
      assert a == StartType(cur, Some(TypeDef(CategoryOf(cat), defs)));
    }
  }

  /** A run of appends under a cursor that names a defined type adds the
      entries, in order, to that type and changes nothing else. */
  lemma {:induction false} AppendsExtendCurrent(st: ReadState, fields: seq<Entry>, acts: seq<RowAction>)
    requires st.current != "" && st.current in st.types
    requires |acts| == |fields|
    requires forall i :: 0 <= i < |acts| ==> acts[i] == AppendEntry(fields[i])
    ensures RunRowActions(st, acts) ==
      Success(st.(types := st.types[st.current := st.types[st.current].(defs := st.types[st.current].defs + fields)]))
  {
    var d := st.types[st.current];
    if |acts| == 0 {
      assert d.defs + fields == d.defs;
      assert st.types[st.current := d] == st.types;
    } else {
      var n := |acts| - 1;
      AppendsExtendCurrent(st, fields[..n], acts[..n]);
      var mid := st.(types := st.types[st.current := d.(defs := d.defs + fields[..n])]);
      assert RunRowActions(st, acts[..n]) == Success(mid);
      assert acts[n] == AppendEntry(fields[n]);
      assert ApplyRowAction(mid, acts[n]) == AppendToCurrent(mid, fields[n]);
      assert d.defs + fields == d.defs + fields[..n] + [fields[n]];
      assert mid.types[st.current := d.(defs := d.defs + fields)] == st.types[st.current := d.(defs := d.defs + fields)];
    }
  }

  /** A run of continuation rows under a cursor that names a defined type
      appends their fields, in row order, to that type and changes nothing else. */
  lemma ContinuationRowsAppend(cols: TypeColumns, st: ReadState, rows: seq<Row>, fields: seq<Entry>)
    requires st.current != "" && st.current in st.types
    requires |rows| == |fields|
    requires forall i :: 0 <= i < |rows| ==> IsContinuationRow(cols, rows[i], fields[i])
    ensures RunRowActions(st, ClassifyTypeRows(cols, true, rows)) ==
      Success(st.(types := st.types[st.current := st.types[st.current].(defs := st.types[st.current].defs + fields)]))
  {
    AppendsExtendCurrent(st, fields, ClassifyTypeRows(cols, true, rows));
  }

  /** A continuation row while the cursor names a type that was never
      entered (its only name row was a skipped self-reference) fails. */
  lemma ContinuationOfSkippedTypeFails(cols: TypeColumns, st: ReadState, row: Row, e: Entry)
    requires st.current != "" && st.current !in st.types
    requires IsContinuationRow(cols, row, e)
    ensures TypeRowStep(cols, true, st, row) == Failure(NoSuchType(st.current))
  {
  }

  // ---------------------------------------------------------------------------
  // Shape of the catalog the reader builds

  predicate EntryTrimmed(e: Entry) {
    match e
    case Plain(s) => IsTrimmed(s)
    case Field(n, t) => IsTrimmed(n) && IsTrimmed(t)
  }

  /** Every name, category and entry is trimmed and every category is lower-case. */
  ghost predicate TrimmedCatalog(types: Catalog) {
    forall t :: t in types ==>
      && IsTrimmed(t)
      && IsTrimmed(types[t].category) && IsLowerText(types[t].category)
      && forall i :: 0 <= i < |types[t].defs| ==> EntryTrimmed(types[t].defs[i])
  }

  /** Every entry of a struct is a (field name, field type) pair. */
  ghost predicate StructsHaveFields(types: Catalog) {
    forall t :: t in types && types[t].category == "struct" ==>
      forall i :: 0 <= i < |types[t].defs| ==> types[t].defs[i].Field?
  }

  lemma CategoryOfShape(cat: Option<string>)
    ensures IsTrimmed(CategoryOf(cat)) && IsLowerText(CategoryOf(cat))
  {
    LowerIsLowerText(Trim(CellText(cat)));
    LowerKeepsTrimmed(Trim(CellText(cat)));
  }

  /** The actions the row loop applies keep the catalog trimmed, and keep
      struct entries as pairs when there is a Field Name column. */
  predicate ShapedAction(hasField: bool, a: RowAction) {
    match a
    case StartType(name, d) =>
      IsTrimmed(name) &&
      (d.Some? ==>
        && IsTrimmed(d.value.category) && IsLowerText(d.value.category)
        && (forall i :: 0 <= i < |d.value.defs| ==> EntryTrimmed(d.value.defs[i]))
        && (hasField && d.value.category == "struct" ==> forall i :: 0 <= i < |d.value.defs| ==> d.value.defs[i].Field?))
    case AppendEntry(e) => EntryTrimmed(e) && (hasField ==> e.Field?)
    case Ignore => true
  }

  lemma NameRowDefsShape(category: string, hasField: bool, fieldName: Option<string>, defn: Option<string>)
    ensures forall i :: 0 <= i < |NameRowDefs(category, hasField, fieldName, defn)| ==>
      EntryTrimmed(NameRowDefs(category, hasField, fieldName, defn)[i])
    ensures hasField && category == "struct" ==>
      forall i :: 0 <= i < |NameRowDefs(category, hasField, fieldName, defn)| ==>
        NameRowDefs(category, hasField, fieldName, defn)[i].Field?
  {
  }

  lemma ClassifyTypeRowShape(cols: TypeColumns, hasField: bool, row: Row)
    ensures ShapedAction(hasField, ClassifyTypeRow(cols, hasField, row))
  {
    var name := GetCell(row, cols.name);
    var cat := GetCell(row, cols.category);
    if Truthy(name) && !IsSelfReference(Trim(name.value), cat, GetCell(row, cols.definition)) {
      CategoryOfShape(cat);
      NameRowDefsShape(CategoryOf(cat), hasField, GetCell(row, cols.fieldName), GetCell(row, cols.definition));
    }
  }

  lemma ApplyRowActionShape(hasField: bool, st: ReadState, a: RowAction)
    requires ShapedAction(hasField, a)
    requires IsTrimmed(st.current) && TrimmedCatalog(st.types)
    requires hasField ==> StructsHaveFields(st.types)
    requires ApplyRowAction(st, a).Success?
    ensures IsTrimmed(ApplyRowAction(st, a).value.current)
    ensures TrimmedCatalog(ApplyRowAction(st, a).value.types)
    ensures hasField ==> StructsHaveFields(ApplyRowAction(st, a).value.types)
  {
  }

  lemma {:induction false} RunRowActionsShape(hasField: bool, st: ReadState, acts: seq<RowAction>)
    requires forall i :: 0 <= i < |acts| ==> ShapedAction(hasField, acts[i])
    requires IsTrimmed(st.current) && TrimmedCatalog(st.types)
    requires hasField ==> StructsHaveFields(st.types)
    requires RunRowActions(st, acts).Success?
    ensures IsTrimmed(RunRowActions(st, acts).value.current)
    ensures TrimmedCatalog(RunRowActions(st, acts).value.types)
    ensures hasField ==> StructsHaveFields(RunRowActions(st, acts).value.types)
  {
    if |acts| > 0 {
      var n := |acts| - 1;
      RunRowActionsShape(hasField, st, acts[..n]);
      ApplyRowActionShape(hasField, RunRowActions(st, acts[..n]).value, acts[n]);
    }
  }

  // ---------------------------------------------------------------------------
  // Legacy one-column layout

  /** "FieldName: FieldType" split at the first ':', else ("Field<i+1>", entry). */
  function LegacyField(i: nat, e: Entry): Entry {
    match e
    case Field(_, _) => e
    case Plain(s) =>
      match IndexOf(s, ':')
      case Some(k) => Field(Trim(s[..k]), Trim(s[k + 1..]))
      case None => Field("Field" + NatToString(i + 1), s)
  }

  function LegacyFields(defs: seq<Entry>): (r: seq<Entry>)
    ensures |r| == |defs|
    ensures forall i :: 0 <= i < |defs| ==> r[i] == LegacyField(i, defs[i])
  {
    seq(|defs|, i requires 0 <= i < |defs| => LegacyField(i, defs[i]))
  }

  /** The post-processing pass: every struct's entries become fields. */
  function LegacyStructs(types: Catalog): (r: Catalog)
    ensures r.Keys == types.Keys
  {
    map t | t in types :: if types[t].category == "struct" then types[t].(defs := LegacyFields(types[t].defs)) else types[t]
  }

  /** A "name: type" entry splits back into its trimmed parts. */
  lemma LegacyFieldSplits(i: nat, n: string, t: string)
    requires ':' !in n
    ensures LegacyField(i, Plain(n + ":" + t)) == Field(Trim(n), Trim(t))
  {
    var s := n + ":" + t;
    assert s[|n|] == ':' && s[..|n|] == n && s[|n| + 1..] == t;
    assert IndexOf(s, ':') == Some(|n|);
  }

  /** An entry without ':' is named after its 1-based position and keeps its text. */
  lemma LegacyFieldNumbers(i: nat, t: string)
    requires ':' !in t
    ensures LegacyField(i, Plain(t)) == Field("Field" + NatToString(i + 1), t)
  {
  }

  // ---------------------------------------------------------------------------
  // The whole reader

  /** `_read_type_definitions` */
  function ReadTypes(header: Row, rows: seq<Row>): Result<Catalog, ReadError> {
    match TypeColumnsOf(header)
    case Failure(e) => Failure(e)
    case Success(cols) =>
      var hasField := HasFieldNameColumn(header, cols);
      match ReadTypeRows(cols, hasField, rows)
      case Failure(e) => Failure(e)
      case Success(st) => Success(if hasField then st.types else LegacyStructs(st.types))
  }

  lemma {:induction false} RunRowActionsFailurePersists(st: ReadState, acts: seq<RowAction>, i: nat)
    requires i <= |acts|
    requires RunRowActions(st, acts[..i]).Failure?
    ensures RunRowActions(st, acts) == RunRowActions(st, acts[..i])
    decreases |acts| - i
  {
    if i < |acts| {
      assert acts[..i + 1][..i] == acts[..i];
      RunRowActionsFailurePersists(st, acts, i + 1);
    } else {
      assert acts[..i] == acts;
    }
  }

  lemma LegacyFieldShape(i: nat, e: Entry)
    requires EntryTrimmed(e)
    ensures LegacyField(i, e).Field? && EntryTrimmed(LegacyField(i, e))
  {
    if e.Plain? && IndexOf(e.text, ':').None? {
      var n := "Field" + NatToString(i + 1);
      assert n[0] == 'F' && IsDigit(n[|n| - 1]);
    }
  }

  /** Whatever rows it is given, a successful read yields a catalog whose
      names, categories and entries are trimmed, whose categories are
      lower-case, and whose struct entries are all (name, type) pairs. */
  lemma ReadTypesShape(header: Row, rows: seq<Row>)
    requires ReadTypes(header, rows).Success?
    ensures TrimmedCatalog(ReadTypes(header, rows).value)
    ensures StructsHaveFields(ReadTypes(header, rows).value)
  {
    var cols := TypeColumnsOf(header).value;
    var acts := ClassifyTypeRows(cols, true, rows);
    forall i | 0 <= i < |acts| ensures ShapedAction(true, acts[i]) {
      ClassifyTypeRowShape(cols, true, rows[i]);
    }
    RunRowActionsShape(true, ReadState("", map[]), acts);
  }

  /** The list a name row stores with its type: the type is entered with an
      empty list, which the struct or array branch then appends to. */
  method NameRowEntries(category: string, hasField: bool, fieldName: Option<string>, defn: Option<string>)
    returns (defs: seq<Entry>)
    ensures defs == NameRowDefs(category, hasField, fieldName, defn)
  {
    defs := [];
    if category == "struct" && hasField {
      if Truthy(fieldName) && Truthy(defn) {
        defs := [Field(Trim(fieldName.value), Trim(defn.value))];
      }
    } else if category == "array" {
      if Truthy(defn) {
        defs := [Plain(Trim(defn.value))];
      }
    }
  }

  /** One pass of the row loop's body, on the cursor and the types dict. */
  method ReadTypeRow(cols: TypeColumns, hasField: bool, current: string, types: Catalog, row: Row)
    returns (r: Result<ReadState, ReadError>)
    ensures r == ApplyRowAction(ReadState(current, types), ClassifyTypeRow(cols, hasField, row))
  {
    var name := GetCell(row, cols.name);
    var cat := GetCell(row, cols.category);
    var fieldName := GetCell(row, cols.fieldName);
    var defn := GetCell(row, cols.definition);
    if Truthy(name) {
      var cur := Trim(name.value);
      if IsSelfReference(cur, cat, defn) {
        return Success(ReadState(cur, types));
      }
      var category := CategoryOf(cat);
      var defs := NameRowEntries(category, hasField, fieldName, defn);
      return Success(ReadState(cur, types[cur := TypeDef(category, defs)]));
    } else if current != "" && Truthy(fieldName) && Truthy(defn) && hasField {
      if current !in types {
        return Failure(NoSuchType(current));
      }
      var d := types[current];
      return Success(ReadState(current, types[current := d.(defs := d.defs + [Field(Trim(fieldName.value), Trim(defn.value))])]));
    } else if current != "" && Truthy(defn) && !hasField {
      if current !in types {
        return Failure(NoSuchType(current));
      }
      var d := types[current];
      return Success(ReadState(current, types[current := d.(defs := d.defs + [Plain(Trim(defn.value))])]));
    }
    return Success(ReadState(current, types));
  }

  /** The reader: the header check, then the row loop, then the legacy
      post-processing when there is no Field Name column. */
  method ReadTypeDefinitions(header: Row, rows: seq<Row>) returns (r: Result<Catalog, ReadError>)
    ensures r == ReadTypes(header, rows)
  {
    var colsOrError := TypeColumnsOf(header);
    if colsOrError.Failure? {
      return Failure(colsOrError.error);
    }
    var cols := colsOrError.value;
    var hasField := HasFieldNameColumn(header, cols);
    var current := "";
    var types: Catalog := map[];
    ghost var acts := ClassifyTypeRows(cols, hasField, rows);
    var i := 0;
    while i < |rows|
      invariant 0 <= i <= |rows|
      invariant RunRowActions(ReadState("", map[]), acts[..i]) == Success(ReadState(current, types))
    {
      assert acts[..i + 1][..i] == acts[..i];
      var next := ReadTypeRow(cols, hasField, current, types, rows[i]);
      if next.Failure? {
        RunRowActionsFailurePersists(ReadState("", map[]), acts, i + 1);
        return Failure(next.error);
      }
      current, types := next.value.current, next.value.types;
      i := i + 1;
    }
    assert acts[..i] == acts;
    if !hasField {
      types := LegacyStructs(types);
    }
    return Success(types);
  }
}
