/** `extract_types`: the Types sheet rebuilt from an ARXML tree. Primitives
    in the extractor's own list of spellings, then arrays, then records, each
    in document order; a record is written as one row carrying its name for
    its first element and blank-name rows for the others. */
module TypeExtraction {
  import opened Wrappers
  import opened Text
  import opened OrderedMaps
  import opened TypeModel
  import opened Sheet
  import opened TypeCatalog
  import opened ArxmlView
  import Arxml

  /** The spellings the extractor keeps a primitive for, as listed in the
      source (with its repetitions). */
  const ExtractorPrimitives: seq<string> := [
    "uint8", "Uint8", "UInt8", "uint16", "Uint16", "UInt16",
    "uint32", "Uint32", "UInt32", "uint64", "Uint64", "UInt64",
    "sint8", "Sint8", "Sint8", "sint16", "Sint16", "Sint16",
    "sint32", "Sint32", "Sint32", "sint64", "Sint64", "Sint64",
    "float32", "Float32", "Float32", "float64", "Float64", "Float64",
    "boolean", "Boolean"
  ]

  /** The row order of the written Types sheet. */
  const TypesHeader: Row := [Some("Name"), Some("Category"), Some("Field Name"), Some("Definition")]

  const SheetColumns := TypeColumns(0, 1, 2, 3)

  // ---------------------------------------------------------------------------
  // Rows

  predicate KeepsPrimitive(name: Option<string>) {
    Truthy(name) && name.value in ExtractorPrimitives
  }

  /** [name, "basic", "", name] */
  function PrimitiveRow(name: string): Row {
    [Some(name), Some("basic"), Some(""), Some(name)]
  }

  /** One row per kept primitive, in order. */
  function PrimitiveRows(prims: seq<Option<string>>): (r: seq<Row>)
    ensures |r| <= |prims|
    ensures forall k :: 0 <= k < |r| ==>
      |r[k]| == 4 && KeepsPrimitive(r[k][0]) && r[k] == PrimitiveRow(r[k][0].value)
  {
    if |prims| == 0 then []
    else
      var n := |prims| - 1;
      PrimitiveRows(prims[..n]) + (if KeepsPrimitive(prims[n]) then [PrimitiveRow(prims[n].value)] else [])
  }

  /** f"{base}[{max}]" */
  function ArrayDefinition(base: string, max: string): string {
    base + "[" + max + "]"
  }

  /** [name, "array", "", f"{base}[{max}]"] when the name, the base type and
      the maximum all have text. */
  function ArrayRow(a: ArrayView): Option<Row> {
    match a.element
    case None => None
    case Some(e) =>
      var base := TypeReference(e.refs);
      if Truthy(a.name) && Truthy(base) && Truthy(e.maxElements) then
        Some([a.name, Some("array"), Some(""), Some(ArrayDefinition(base.value, e.maxElements.value))])
      else None
  }

  function ArrayRows(arrays: seq<ArrayView>): (r: seq<Row>)
    ensures |r| <= |arrays|
  {
    if |arrays| == 0 then []
    else
      var n := |arrays| - 1;
      ArrayRows(arrays[..n]) + (match ArrayRow(arrays[n]) case Some(row) => [row] case None => [])
  }

  /** A record element with both a SHORT-NAME and a type reference. */
  predicate Complete(m: MemberView) {
    Truthy(m.name) && Truthy(TypeReference(m.refs))
  }

  /** The row of a record's element at position i: the element at position
      0 carries the record's name and "struct", the others leave both blank;
      an element without a name or a type reference gives no row. */
  function MemberRow(name: Option<string>, i: nat, m: MemberView): seq<Row> {
    if !Complete(m) then []
    else if i == 0 then [[name, Some("struct"), m.name, TypeReference(m.refs)]]
    else [[Some(""), Some(""), m.name, TypeReference(m.refs)]]
  }

  /** A row that starts the record `name`. */
  predicate NameRow(name: Option<string>, row: Row) {
    |row| == 4 && row[0] == name && row[1] == Some("struct") && Truthy(row[2]) && Truthy(row[3])
  }

  /** A row that continues the record above it. */
  predicate BlankRow(row: Row) {
    |row| == 4 && row[0] == Some("") && row[1] == Some("") && Truthy(row[2]) && Truthy(row[3])
  }

  /** The rows of a record's elements, in order. */
  function MemberRows(name: Option<string>, ms: seq<MemberView>): (r: seq<Row>)
    ensures |r| <= |ms|
  {
    if |ms| == 0 then []
    else
      var n := |ms| - 1;
      MemberRows(name, ms[..n]) + MemberRow(name, n, ms[n])
  }

  /** Every row from position j on continues the record above it. */
  predicate BlankFrom(rows: seq<Row>, j: nat) {
    forall k :: j <= k < |rows| ==> BlankRow(rows[k])
  }

  /** When the element at position 0 is complete, its row starts the
      record. */
  lemma {:induction false} MemberRowsStart(name: Option<string>, ms: seq<MemberView>)
    requires |ms| > 0 && Complete(ms[0])
    ensures |MemberRows(name, ms)| > 0 && NameRow(name, MemberRows(name, ms)[0])
  {
    var n := |ms| - 1;
    var t := MemberRow(name, n, ms[n]);
    assert MemberRows(name, ms) == MemberRows(name, ms[..n]) + t;
    if n > 0 {
      assert ms[..n][0] == ms[0];
      MemberRowsStart(name, ms[..n]);
    }
  }

  /** Only the element at position 0 can start the record: every other row
      is a continuation row, and when the element at position 0 gives no
      row, so is the first. */
  lemma {:induction false} MemberRowsBlank(name: Option<string>, ms: seq<MemberView>)
    ensures BlankFrom(MemberRows(name, ms), if |ms| > 0 && Complete(ms[0]) then 1 else 0)
  {
    if |ms| > 0 {
      var n := |ms| - 1;
      MemberRowsBlank(name, ms[..n]);
      var t := MemberRow(name, n, ms[n]);
      assert MemberRows(name, ms) == MemberRows(name, ms[..n]) + t;
      if n > 0 {
        assert ms[..n][0] == ms[0];
        assert BlankFrom(t, 0);
      }
    }
  }

  function RecordRows(rec: RecordView): seq<Row> {
    match rec.elements
    case None => []
    case Some(ms) => MemberRows(rec.name, ms)
  }

  function RecordsRows(recs: seq<RecordView>): seq<Row> {
    if |recs| == 0 then []
    else RecordsRows(recs[..|recs| - 1]) + RecordRows(recs[|recs| - 1])
  }

  /** Everything `extract_types` returns. */
  function TypeRows(doc: Document): seq<Row> {
    PrimitiveRows(doc.primitives) + ArrayRows(doc.arrays) + RecordsRows(doc.records)
  }

  // ---------------------------------------------------------------------------
  // The loops

  /** One more primitive: its row, if kept, follows the earlier ones. */
  lemma PrimitivesContinue(prefix: seq<Row>, prims: seq<Option<string>>, i: nat, rows: seq<Row>)
    requires i < |prims| && rows == prefix + PrimitiveRows(prims[..i])
    ensures KeepsPrimitive(prims[i]) ==> rows + [PrimitiveRow(prims[i].value)] == prefix + PrimitiveRows(prims[..i + 1])
    ensures !KeepsPrimitive(prims[i]) ==> rows == prefix + PrimitiveRows(prims[..i + 1])
  {
    assert prims[..i + 1][..i] == prims[..i];
    if KeepsPrimitive(prims[i]) {
      assert prefix + PrimitiveRows(prims[..i]) + [PrimitiveRow(prims[i].value)] ==
        prefix + (PrimitiveRows(prims[..i]) + [PrimitiveRow(prims[i].value)]);
    }
  }

  /** One more array after the rows written so far. */
  lemma ArraysContinue(prefix: seq<Row>, arrays: seq<ArrayView>, j: nat, rows: seq<Row>)
    requires j < |arrays| && rows == prefix + ArrayRows(arrays[..j])
    ensures ArrayRow(arrays[j]).Some? ==> rows + [ArrayRow(arrays[j]).value] == prefix + ArrayRows(arrays[..j + 1])
    ensures ArrayRow(arrays[j]).None? ==> rows == prefix + ArrayRows(arrays[..j + 1])
  {
    assert arrays[..j + 1][..j] == arrays[..j];
    if ArrayRow(arrays[j]).Some? {
      assert prefix + ArrayRows(arrays[..j]) + [ArrayRow(arrays[j]).value] ==
        prefix + (ArrayRows(arrays[..j]) + [ArrayRow(arrays[j]).value]);
    }
  }

  /** One more element of a record after the rows written so far. */
  lemma MembersContinue(prefix: seq<Row>, name: Option<string>, ms: seq<MemberView>, e: nat, rows: seq<Row>)
    requires e < |ms| && rows == prefix + MemberRows(name, ms[..e])
    ensures rows + MemberRow(name, e, ms[e]) == prefix + MemberRows(name, ms[..e + 1])
  {
    assert ms[..e + 1][..e] == ms[..e];
    assert prefix + MemberRows(name, ms[..e]) + MemberRow(name, e, ms[e]) ==
      prefix + (MemberRows(name, ms[..e]) + MemberRow(name, e, ms[e]));
  }

  /** One more record after the rows written so far. */
  lemma RecordsContinue(prefix: seq<Row>, recs: seq<RecordView>, k: nat, rows: seq<Row>)
    requires k < |recs| && rows == prefix + RecordsRows(recs[..k])
    ensures rows + RecordRows(recs[k]) == prefix + RecordsRows(recs[..k + 1])
  {
    assert recs[..k + 1][..k] == recs[..k];
    assert prefix + RecordsRows(recs[..k]) + RecordRows(recs[k]) ==
      prefix + (RecordsRows(recs[..k]) + RecordRows(recs[k]));
  }

  /** `extract_types`: three loops appending to one list, the record loop
      with an inner loop over the record's elements; each loop is a method
      that appends to the list it is given. */
  method ExtractTypes(doc: Document) returns (rows: seq<Row>)
    ensures rows == TypeRows(doc)
  {
    ghost var prims := PrimitiveRows(doc.primitives);
    rows := AppendPrimitiveRows([], doc.primitives);
    assert rows == prims;
    rows := AppendArrayRows(rows, doc.arrays);
    rows := AppendRecordsRows(rows, doc.records);
  }

  /** The primitive loop: a row for each primitive whose name is in the list. */
  method AppendPrimitiveRows(prefix: seq<Row>, prims: seq<Option<string>>) returns (rows: seq<Row>)
    ensures rows == prefix + PrimitiveRows(prims)
  {
    rows := prefix;
    var i := 0;
    while i < |prims|
      invariant 0 <= i <= |prims|
      invariant rows == prefix + PrimitiveRows(prims[..i])
    {
      var name := prims[i];
      PrimitivesContinue(prefix, prims, i, rows);
      if Truthy(name) && name.value in ExtractorPrimitives {
        rows := rows + [PrimitiveRow(name.value)];
      }
      i := i + 1;
    }
    assert prims[..i] == prims;
  }

  /** The array loop: a row for each array whose name, element type and
      size all have text. */
  method AppendArrayRows(prefix: seq<Row>, arrays: seq<ArrayView>) returns (rows: seq<Row>)
    ensures rows == prefix + ArrayRows(arrays)
  {
    rows := prefix;
    var j := 0;
    while j < |arrays|
      invariant 0 <= j <= |arrays|
      invariant rows == prefix + ArrayRows(arrays[..j])
    {
      var a := arrays[j];
      ArraysContinue(prefix, arrays, j, rows);
      if a.element.Some? {
        var base := TypeReference(a.element.value.refs);
        var max := a.element.value.maxElements;
        if Truthy(a.name) && Truthy(base) && Truthy(max) {
          assert ArrayRow(a) == Some([a.name, Some("array"), Some(""), Some(ArrayDefinition(base.value, max.value))]);
          rows := rows + [[a.name, Some("array"), Some(""), Some(ArrayDefinition(base.value, max.value))]];
        } else {
          assert ArrayRow(a).None?;
        }
      } else {
        assert ArrayRow(a).None?;
      }
      j := j + 1;
    }
    assert arrays[..j] == arrays;
  }

  /** The record loop. */
  method AppendRecordsRows(prefix: seq<Row>, recs: seq<RecordView>) returns (rows: seq<Row>)
    ensures rows == prefix + RecordsRows(recs)
  {
    rows := prefix;
    var k := 0;
    while k < |recs|
      invariant 0 <= k <= |recs|
      invariant rows == prefix + RecordsRows(recs[..k])
    {
      var rec := recs[k];
      RecordsContinue(prefix, recs, k, rows);
      if rec.elements.Some? {
        rows := AppendMemberRows(rows, rec.name, rec.elements.value);
      } else {
        assert rows + RecordRows(rec) == rows;
      }
      k := k + 1;
    }
    assert recs[..k] == recs;
  }

  /** The inner loop over a record's elements: the element at position 0
      carries the record's name and category, the others blank cells. */
  method AppendMemberRows(prefix: seq<Row>, name: Option<string>, ms: seq<MemberView>) returns (rows: seq<Row>)
    ensures rows == prefix + MemberRows(name, ms)
  {
    rows := prefix;
    var e := 0;
    while e < |ms|
      invariant 0 <= e <= |ms|
      invariant rows == prefix + MemberRows(name, ms[..e])
    {
      var m := ms[e];
      MembersContinue(prefix, name, ms, e, rows);
      var fieldType := TypeReference(m.refs);
      if Truthy(m.name) && Truthy(fieldType) {
        if e == 0 {
          assert MemberRow(name, e, m) == [[name, Some("struct"), m.name, fieldType]];
          rows := rows + [[name, Some("struct"), m.name, fieldType]];
        } else {
          assert MemberRow(name, e, m) == [[Some(""), Some(""), m.name, fieldType]];
          rows := rows + [[Some(""), Some(""), m.name, fieldType]];
        }
      } else {
        assert rows + MemberRow(name, e, m) == rows;
      }
      e := e + 1;
    }
    assert ms[..e] == ms;
  }

  // ---------------------------------------------------------------------------
  // Primitives

  /** A primitive gets a row exactly when its name is in the list. */
  lemma {:induction false} PrimitiveRowsKept(prims: seq<Option<string>>, n: string)
    ensures PrimitiveRow(n) in PrimitiveRows(prims) <==> Some(n) in prims && KeepsPrimitive(Some(n))
  {
    if |prims| > 0 {
      var m := |prims| - 1;
      PrimitiveRowsKept(prims[..m], n);
      assert prims == prims[..m] + [prims[m]];
      if KeepsPrimitive(prims[m]) && PrimitiveRow(prims[m].value) == PrimitiveRow(n) {
        assert prims[m].value == PrimitiveRow(n)[0].value;
      }
    }
  }

  /** Every spelling the extractor keeps is one the generator's table
      recognises, so a kept primitive is resolved as a primitive again. */
  lemma ExtractorPrimitivesAreBasic(n: string)
    requires n in ExtractorPrimitives
    ensures n in BasicTypes && IsBasicType(n)
  {
  }

  /** The generator's table knows "bool" and the "SInt" spellings; the
      extractor's list does not, so a primitive with such a name is dropped. */
  lemma ExtractorMissesSpellings(n: string)
    requires n == "bool" || n == "SInt8" || n == "SInt16" || n == "SInt32" || n == "SInt64"
    ensures n in BasicTypes && !KeepsPrimitive(Some(n))
  {
    assert |n| < 5 || (n[0] == 'S' && n[1] == 'I');
    ExtractorListShape();
  }

  /** No spelling in the extractor's list is shorter than five letters or
      starts with "SI". */
  lemma ExtractorListShape()
    ensures forall s :: s in ExtractorPrimitives ==> |s| >= 5 && !(s[0] == 'S' && s[1] == 'I')
  {
    forall i | 0 <= i < |ExtractorPrimitives|
      ensures |ExtractorPrimitives[i]| >= 5 && !(ExtractorPrimitives[i][0] == 'S' && ExtractorPrimitives[i][1] == 'I')
    {
    }
  }

  // ---------------------------------------------------------------------------
  // Reading the rows back with the Types sheet reader

  lemma CategoryOfLiteral(c: string)
    requires IsTrimmed(c) && IsLowerText(c)
    ensures CategoryOf(Some(c)) == c
  {
    TrimOfTrimmed(c);
    LowerOfLowerText(c);
  }

  /** The written header locates the four columns at positions 0 to 3, with
      a Field Name column. */
  lemma TypesHeaderColumns()
    ensures TypeColumnsOf(TypesHeader) == Success(SheetColumns)
    ensures HasFieldNameColumn(TypesHeader, SheetColumns)
  {
    assert TypesHeader[0] == Some("Name");
    assert TypesHeader[1] == Some("Category") && Some("Category") !in TypesHeader[..1];
    assert TypesHeader[2] == Some("Field Name") && Some("Field Name") !in TypesHeader[..2];
    assert TypesHeader[3] == Some("Definition") && Some("Definition") !in TypesHeader[..3];
  }

  /** A primitive row is a `basic` self-reference: the reader moves its
      cursor to the name and defines nothing. */
  lemma PrimitiveRowIsSkipped(n: string)
    requires n != ""
    ensures ClassifyTypeRow(SheetColumns, true, PrimitiveRow(n)) == StartType(Trim(n), None)
  {
    var row := PrimitiveRow(n);
    assert GetCell(row, 0) == Some(n) && GetCell(row, 1) == Some("basic") && GetCell(row, 3) == Some(n);
    BasicCategory();
    assert IsSelfReference(Trim(n), Some("basic"), Some(n));
  }

  lemma BasicCategory()
    ensures CategoryOf(Some("basic")) == "basic"
  {
    CategoryOfLiteral("basic");
  }

  /** A four-cell row with a name that is not a `basic` self-reference
      starts a type with the row's category and the entries it carries. */
  lemma NameRowClassified(name: string, cat: Option<string>, f: Option<string>, d: Option<string>)
    requires name != "" && !IsSelfReference(Trim(name), cat, d)
    ensures ClassifyTypeRow(SheetColumns, true, [Some(name), cat, f, d]) ==
      StartType(Trim(name), Some(TypeDef(CategoryOf(cat), NameRowDefs(CategoryOf(cat), true, f, d))))
  {
    var row := [Some(name), cat, f, d];
    assert GetCell(row, 0) == Some(name) && GetCell(row, 1) == cat;
    assert GetCell(row, 2) == f && GetCell(row, 3) == d;
  }

  /** An array row is read as an array type with its definition as the one
      stored entry. */
  lemma ArrayRowClassified(name: string, def: string)
    requires Trim(name) != "" && def != "" && IsTrimmed(def)
    ensures ClassifyTypeRow(SheetColumns, true, [Some(name), Some("array"), Some(""), Some(def)]) ==
      StartType(Trim(name), Some(TypeDef("array", [Plain(def)])))
  {
    ArrayCategory(Trim(name), def);
    NameRowClassified(name, Some("array"), Some(""), Some(def));
    ArrayEntries(def);
  }

  lemma ArrayCategory(cur: string, def: string)
    ensures CategoryOf(Some("array")) == "array"
    ensures !IsSelfReference(cur, Some("array"), Some(def))
  {
    CategoryOfLiteral("array");
    assert "array"[0] != "basic"[0];
  }

  lemma ArrayEntries(def: string)
    requires def != "" && IsTrimmed(def)
    ensures NameRowDefs("array", true, Some(""), Some(def)) == [Plain(def)]
  {
    assert "array"[0] != "struct"[0];
    TrimOfTrimmed(def);
  }

  /** The array type the generator writes for `base[size]`: element
      TYPE-TREF `/DataTypes/ApplicationDataTypes/<base>` and maximum
      the decimal text of size. */
  function GeneratedArray(name: string, base: string, size: nat): ArrayView {
    ArrayView(Some(name), Some(ArrayElementView(Refs(Some(Arxml.ApplicationTypesPath + base), None), Some(NatToString(size)))))
  }

  lemma GeneratedArrayRow(name: string, base: string, size: nat)
    requires name != "" && IsWord(base)
    ensures ArrayRow(GeneratedArray(name, base, size)) ==
      Some([Some(name), Some("array"), Some(""), Some(FormatArray(base, size))])
  {
    assert Arxml.ApplicationTypesPath + base == "/DataTypes/ApplicationDataTypes" + "/" + base;
    assert '/' !in base by {
      forall i | 0 <= i < |base| ensures base[i] != '/' {
        assert IsWordChar(base[i]);
      }
    }
    TypeReferenceOfPath("/DataTypes/ApplicationDataTypes", base, None);
  }

  lemma FormatArrayTrimmed(base: string, size: nat)
    requires IsWord(base)
    ensures FormatArray(base, size) != "" && IsTrimmed(FormatArray(base, size))
  {
    var def := FormatArray(base, size);
    assert def[0] == base[0] && IsWordChar(base[0]);
    assert def[|def| - 1] == ']';
  }

  /** An array type as the generator writes it is extracted as a row that
      the reader stores as an array definition, and that definition parses
      back to the same base and size. */
  lemma GeneratedArrayReadsBack(name: string, base: string, size: nat)
    requires Trim(name) != "" && IsWord(base)
    ensures ArrayRow(GeneratedArray(name, base, size)) ==
      Some([Some(name), Some("array"), Some(""), Some(FormatArray(base, size))])
    ensures ClassifyTypeRow(SheetColumns, true, ArrayRow(GeneratedArray(name, base, size)).value) ==
      StartType(Trim(name), Some(TypeDef("array", [Plain(FormatArray(base, size))])))
    ensures ParseArray(FormatArray(base, size)) == Some((base, size))
  {
    GeneratedArrayRow(name, base, size);
    FormatArrayTrimmed(base, size);
    ArrayRowClassified(name, FormatArray(base, size));
    ParseFormatArray(base, size);
  }

  // ---------------------------------------------------------------------------
  // Records

  /** The field the reader stores for a complete record element. */
  function FieldOf(m: MemberView): Entry
    requires Complete(m)
  {
    Field(Trim(m.name.value), Trim(TypeReference(m.refs).value))
  }

  predicate AllComplete(ms: seq<MemberView>) {
    forall i :: 0 <= i < |ms| ==> Complete(ms[i])
  }

  function FieldsOf(ms: seq<MemberView>): (r: seq<Entry>)
    requires AllComplete(ms)
    ensures |r| == |ms|
    ensures forall i :: 0 <= i < |ms| ==> r[i] == FieldOf(ms[i])
  {
    if |ms| == 0 then []
    else [FieldOf(ms[0])] + FieldsOf(ms[1..])
  }

  lemma AllCompleteSlice(ms: seq<MemberView>, i: nat, j: nat)
    requires AllComplete(ms) && i <= j <= |ms|
    ensures AllComplete(ms[i..j])
  {
    forall k | 0 <= k < j - i ensures Complete(ms[i..j][k]) {
      assert ms[i..j][k] == ms[i + k];
    }
  }

  /** FieldsOf splits after its first element. */
  lemma FieldsOfCons(ms: seq<MemberView>)
    requires |ms| > 0 && AllComplete(ms)
    ensures AllComplete(ms[1..])
    ensures FieldsOf(ms) == [FieldOf(ms[0])] + FieldsOf(ms[1..])
  {
    AllCompleteSlice(ms, 1, |ms|);
    assert ms[1..|ms|] == ms[1..];
  }

  /** The blank-name row of a complete element. */
  function ContinuationOf(m: MemberView): Row {
    [Some(""), Some(""), m.name, TypeReference(m.refs)]
  }

  /** The blank-name row of a complete element continues the record with
      the element's field. */
  lemma ContinuationRowIsField(m: MemberView)
    requires Complete(m)
    ensures IsContinuationRow(SheetColumns, ContinuationOf(m), FieldOf(m))
  {
    var row := ContinuationOf(m);
    assert GetCell(row, 0) == Some("");
    assert GetCell(row, 2) == m.name && GetCell(row, 3) == TypeReference(m.refs);
  }

  /** The blank-name rows of a run of elements, in order. */
  function Continuations(ms: seq<MemberView>): (r: seq<Row>)
    ensures |r| == |ms|
    ensures forall i :: 0 <= i < |ms| ==> r[i] == ContinuationOf(ms[i])
  {
    if |ms| == 0 then []
    else Continuations(ms[..|ms| - 1]) + [ContinuationOf(ms[|ms| - 1])]
  }

  /** When every element after position 0 is complete, the rows are those
      of the element at position 0 (one row or none) followed by one
      blank-name row per later element. */
  lemma {:induction false} MemberRowsSplit(name: Option<string>, ms: seq<MemberView>)
    requires |ms| > 0 && AllComplete(ms[1..])
    ensures MemberRows(name, ms) == MemberRow(name, 0, ms[0]) + Continuations(ms[1..])
  {
    var n := |ms| - 1;
    if n == 0 {
      assert MemberRows(name, ms) == MemberRows(name, []) + MemberRow(name, 0, ms[0]);
      assert ms[1..] == [];
    } else {
      var ps := ms[..n];
      AllCompleteSlice(ms[1..], 0, n - 1);
      assert ps[0] == ms[0] && ps[1..] == ms[1..][0..n - 1];
      MemberRowsSplit(name, ps);
      MemberRowsSplitStep(name, ms);
    }
  }

  /** The inductive step of MemberRowsSplit: one more complete element adds
      its blank-name row. */
  lemma MemberRowsSplitStep(name: Option<string>, ms: seq<MemberView>)
    requires |ms| > 1 && Complete(ms[|ms| - 1])
    requires MemberRows(name, ms[..|ms| - 1]) == MemberRow(name, 0, ms[0]) + Continuations(ms[1..|ms| - 1])
    ensures MemberRows(name, ms) == MemberRow(name, 0, ms[0]) + Continuations(ms[1..])
  {
    var n := |ms| - 1;
    var h := MemberRow(name, 0, ms[0]);
    var c := Continuations(ms[1..n]);
    var t := [ContinuationOf(ms[n])];
    assert MemberRow(name, n, ms[n]) == t;
    assert MemberRows(name, ms) == (h + c) + t;
    assert ms[1..][..n - 1] == ms[1..n];
    assert Continuations(ms[1..]) == c + t;
    ConcatAssoc(h, c, t);
  }

  /** The rows after the first element's own: one continuation row per
      later element, carrying that element's field. */
  lemma ContinuationRowsOf(name: Option<string>, ms: seq<MemberView>) returns (rest: seq<Row>)
    requires |ms| > 0 && AllComplete(ms[1..])
    ensures MemberRows(name, ms) == MemberRow(name, 0, ms[0]) + rest
    ensures |rest| == |FieldsOf(ms[1..])|
    ensures forall k :: 0 <= k < |rest| ==> IsContinuationRow(SheetColumns, rest[k], FieldsOf(ms[1..])[k])
  {
    MemberRowsSplit(name, ms);
    rest := Continuations(ms[1..]);
    forall k | 0 <= k < |rest| ensures IsContinuationRow(SheetColumns, rest[k], FieldsOf(ms[1..])[k]) {
      ContinuationRowIsField(ms[1..][k]);
    }
  }

  /** The name row of a record's first element starts the record with that
      element as its one field. */
  lemma StructRowClassified(name: string, m: MemberView) returns (a: RowAction)
    requires Trim(name) != "" && Complete(m)
    ensures ClassifyTypeRows(SheetColumns, true, MemberRow(Some(name), 0, m)) == [a]
    ensures a == StartType(Trim(name), Some(TypeDef("struct", [FieldOf(m)])))
  {
    var row := MemberRow(Some(name), 0, m);
    assert row == [[Some(name), Some("struct"), m.name, TypeReference(m.refs)]];
    CategoryOfLiteral("struct");
    assert "struct"[0] != "basic"[0];
    NameRowClassified(name, Some("struct"), m.name, TypeReference(m.refs));
    a := ClassifyTypeRow(SheetColumns, true, row[0]);
  }

  lemma OneActionRun(st: ReadState, a: RowAction)
    ensures RunRowActions(st, [a]) == ApplyRowAction(st, a)
  {
    assert [a][..0] == [];
  }

  lemma MapUpdateTwice<K, V>(m: map<K, V>, k: K, a: V, b: V)
    ensures m[k := a][k := b] == m[k := b]
  {
  }

  /** A struct name row followed by continuation rows defines the struct
      with the first field and then the continuation fields, cursor on it. */
  lemma StartThenAppends(st: ReadState, cur: string, first: Entry, a: RowAction, rows: seq<Row>, fields: seq<Entry>)
    requires cur != "" && a == StartType(cur, Some(TypeDef("struct", [first])))
    requires |rows| == |fields|
    requires forall i :: 0 <= i < |rows| ==> IsContinuationRow(SheetColumns, rows[i], fields[i])
    ensures RunRowActions(st, [a] + ClassifyTypeRows(SheetColumns, true, rows)) ==
      Success(ReadState(cur, st.types[cur := TypeDef("struct", [first] + fields)]))
  {
    var mid := ReadState(cur, st.types[cur := TypeDef("struct", [first])]);
    OneActionRun(st, a);
    assert RunRowActions(st, [a]) == Success(mid);
    RunRowActionsAppend(st, [a], ClassifyTypeRows(SheetColumns, true, rows));
    ContinuationRowsAppend(SheetColumns, mid, rows, fields);
    MapUpdateTwice(st.types, cur, TypeDef("struct", [first]), TypeDef("struct", [first] + fields));
  }

  /** The rows of a record whose elements are all complete, read back from
      any state, define the record (under its trimmed name) as a struct with
      exactly those fields in order, and leave the cursor on it: the
      extractor writes the inverse of the blank-name continuation layout. */
  lemma RecordRowsReadBack(st: ReadState, name: string, ms: seq<MemberView>)
    requires Trim(name) != ""
    requires |ms| > 0 && AllComplete(ms)
    ensures RunRowActions(st, ClassifyTypeRows(SheetColumns, true, MemberRows(Some(name), ms))) ==
      Success(ReadState(Trim(name), st.types[Trim(name) := TypeDef("struct", FieldsOf(ms))]))
  {
    FieldsOfCons(ms);
    var head := MemberRow(Some(name), 0, ms[0]);
    var rest := ContinuationRowsOf(Some(name), ms);
    var a := StructRowClassified(name, ms[0]);
    ClassifyTypeRowsAppend(SheetColumns, true, head, rest);
    StartThenAppends(st, Trim(name), FieldOf(ms[0]), a, rest, FieldsOf(ms[1..]));
  }

  /** A record whose element at position 0 has no name or no type
      reference is written without any row carrying its name: the reader
      adds its other fields to whatever type the cursor is on, and defines
      nothing under the record's name. */
  lemma FirstElementDroppedLosesRecord(st: ReadState, name: Option<string>, ms: seq<MemberView>)
    requires st.current != "" && st.current in st.types
    requires |ms| > 0 && !Complete(ms[0]) && AllComplete(ms[1..])
    ensures BlankFrom(MemberRows(name, ms), 0)
    ensures RunRowActions(st, ClassifyTypeRows(SheetColumns, true, MemberRows(name, ms))) ==
      Success(st.(types := st.types[st.current := st.types[st.current].(defs := st.types[st.current].defs + FieldsOf(ms[1..]))]))
  {
    MemberRowsBlank(name, ms);
    var rest := ContinuationRowsOf(name, ms);
    assert MemberRows(name, ms) == rest;
    ContinuationRowsAppend(SheetColumns, st, rest, FieldsOf(ms[1..]));
  }
}
