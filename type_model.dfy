/** The type catalog shared by both converters: the fixed table of primitive
    spellings, the array-definition pattern, and the name -> (category,
    definitions) catalog that the Types sheet is read into. */
module TypeModel {
  import opened Wrappers
  import opened Text
  import opened OrderedMaps

  // ---------------------------------------------------------------------------
  // BASIC_TYPES

  /** Spelling -> canonical primitive name. Recognition is by exact key, so
      "UINT8" or "Bool" are not primitives. */
  const BasicTypes: map<string, string> := map[
    "boolean" := "boolean", "Boolean" := "boolean", "bool" := "boolean",
    "uint8" := "uint8", "Uint8" := "uint8", "UInt8" := "uint8",
    "uint16" := "uint16", "Uint16" := "uint16", "UInt16" := "uint16",
    "uint32" := "uint32", "Uint32" := "uint32", "UInt32" := "uint32",
    "uint64" := "uint64", "Uint64" := "uint64", "UInt64" := "uint64",
    "sint8" := "sint8", "Sint8" := "sint8", "SInt8" := "sint8",
    "sint16" := "sint16", "Sint16" := "sint16", "SInt16" := "sint16",
    "sint32" := "sint32", "Sint32" := "sint32", "SInt32" := "sint32",
    "sint64" := "sint64", "Sint64" := "sint64", "SInt64" := "sint64",
    "float32" := "float32", "Float32" := "float32",
    "float64" := "float64", "Float64" := "float64"
  ]

  /** A spelling in the table, or "boolean". */
  predicate IsBasicType(t: string) {
    t in BasicTypes || t == "boolean"
  }

  // ---------------------------------------------------------------------------
  // ARRAY_PATTERN = ^(\w+)\[(\d+)\]$, applied with re.match

  predicate IsWordChar(c: char) {
    'a' <= c <= 'z' || 'A' <= c <= 'Z' || '0' <= c <= '9' || c == '_'
  }

  /** A non-empty run of word characters: a match of \w+. */
  predicate IsWord(s: string) {
    |s| > 0 && forall i :: 0 <= i < |s| ==> IsWordChar(s[i])
  }

  /** A match of \d+. */
  predicate IsNumeral(s: string) {
    |s| > 0 && IsDigits(s)
  }

  /** s matches the array pattern with groups base and digits. Python's `$`
      also matches just before a final newline. */
  ghost predicate MatchesArrayPattern(s: string, base: string, digits: string) {
    && IsWord(base)
    && IsNumeral(digits)
    && (s == base + "[" + digits + "]" || s == base + "[" + digits + "]\n")
  }

  /** The digits group of what follows the '[': a numeral closed by "]",
      or by "]\n" since Python's `$` also matches before a final newline. */
  function SizeGroup(rest: string): (r: Option<string>)
    ensures r.Some? ==> IsNumeral(r.value) && (rest == r.value + "]" || rest == r.value + "]\n")
  {
    if EndsWith(rest, "]\n") && IsNumeral(rest[..|rest| - 2]) then
      assert rest == rest[..|rest| - 2] + "]\n";
      Some(rest[..|rest| - 2])
    else if !EndsWith(rest, "]\n") && EndsWith(rest, "]") && IsNumeral(rest[..|rest| - 1]) then
      assert rest == rest[..|rest| - 1] + "]";
      Some(rest[..|rest| - 1])
    else None
  }

  /** The two groups of a match, if s matches. */
  function MatchArrayPattern(s: string): (r: Option<(string, string)>)
    ensures r.Some? ==> MatchesArrayPattern(s, r.value.0, r.value.1)
  {
    match IndexOf(s, '[')
    case None => None
    case Some(k) =>
      assert s == s[..k] + "[" + s[k + 1..];
      if !IsWord(s[..k]) then None
      else
        match SizeGroup(s[k + 1..])
        case None => None
        case Some(digits) => Some((s[..k], digits))
  }

  /** A numeral closed by "]" or "]\n" is found by SizeGroup. */
  lemma SizeGroupComplete(digits: string, tail: string)
    requires IsNumeral(digits) && (tail == "]" || tail == "]\n")
    ensures SizeGroup(digits + tail) == Some(digits)
  {
    var rest := digits + tail;
    if tail == "]\n" {
      assert rest[|rest| - 2..] == "]\n";
      assert rest[..|rest| - 2] == digits;
    } else {
      assert rest[|rest| - 1] == ']';
      assert rest[|rest| - 1..] == "]";
      assert rest[..|rest| - 1] == digits;
    }
  }

  /** The match is assembled from the first '[', a word before it and the
      size group after it. */
  lemma MatchFromParts(s: string, k: nat, digits: string)
    requires IndexOf(s, '[') == Some(k)
    requires IsWord(s[..k]) && SizeGroup(s[k + 1..]) == Some(digits)
    ensures MatchArrayPattern(s) == Some((s[..k], digits))
  {
  }

  /** Every match is found: the pattern's groups are unique and
      MatchArrayPattern returns them. */
  lemma ArrayPatternComplete(s: string, base: string, digits: string)
    requires MatchesArrayPattern(s, base, digits)
    ensures MatchArrayPattern(s) == Some((base, digits))
  {
    var tail := if s == base + "[" + digits + "]\n" then "]\n" else "]";
    assert s == base + ("[" + (digits + tail));
    assert s[..|base|] == base;
    assert '[' !in base by {
      forall i | 0 <= i < |base| ensures base[i] != '[' {
        assert IsWordChar(base[i]);
      }
    }
    IndexOfAt(s, '[', |base|);
    assert s[|base| + 1..] == digits + tail;
    SizeGroupComplete(digits, tail);
    MatchFromParts(s, |base|, digits);
  }

  /** ARRAY_PATTERN.match(defn) and, on success, (group(1), int(group(2))). */
  function ParseArray(s: string): Option<(string, nat)> {
    match MatchArrayPattern(s)
    case None => None
    case Some((base, digits)) => Some((base, DigitsValue(digits)))
  }

  /** The definition text f"{base}[{size}]" written for an array row. */
  function FormatArray(base: string, size: nat): string {
    base + "[" + NatToString(size) + "]"
  }

  /** An array definition written from a base name and a size parses back to
      the same base name and size. */
  lemma ParseFormatArray(base: string, size: nat)
    requires IsWord(base)
    ensures ParseArray(FormatArray(base, size)) == Some((base, size))
  {
    ArrayPatternComplete(FormatArray(base, size), base, NatToString(size));
  }

  /** "uint8[10]" is an array of ten uint8. */
  lemma ArrayPatternAccepts()
    ensures ParseArray("uint8[10]") == Some(("uint8", 10))
  {
    assert IsWord("uint8") by {
      forall i | 0 <= i < 5 ensures IsWordChar("uint8"[i]) { }
    }
    assert NatToString(10) == "10";
    ParseFormatArray("uint8", 10);
    assert FormatArray("uint8", 10) == "uint8[10]";
  }

  /** A name without brackets is not an array definition. */
  lemma ArrayPatternRejectsBareName()
    ensures ParseArray("uint8") == None
  {
    assert '[' !in "uint8";
  }

  /** No match when the text after the first '[' has no size group. */
  lemma NoMatchWithoutSize(s: string, k: nat)
    requires IndexOf(s, '[') == Some(k) && SizeGroup(s[k + 1..]) == None
    ensures MatchArrayPattern(s) == None
  {
  }

  /** A size between the brackets that is not a decimal numeral is not an
      array definition. */
  lemma ArrayPatternRejectsBadSize(base: string, size: string)
    requires '[' !in base && !IsNumeral(size)
    ensures ParseArray(base + "[" + size + "]") == None
  {
    var s := base + "[" + size + "]";
    assert s == base + ("[" + (size + "]"));
    assert s[..|base|] == base;
    IndexOfAt(s, '[', |base|);
    var rest := s[|base| + 1..];
    assert rest == size + "]";
    assert SizeGroup(rest) == None by {
      assert rest[|rest| - 1] == ']';
      assert rest[..|rest| - 1] == size;
    }
    NoMatchWithoutSize(s, |base|);
  }

  /** Empty brackets are not an array definition. */
  lemma ArrayPatternRejectsEmptySize()
    ensures ParseArray("uint8[]") == None
  {
    assert "uint8" + "[" + "" + "]" == "uint8[]";
    ArrayPatternRejectsBadSize("uint8", "");
  }

  /** A size that is not a decimal numeral is not an array definition. */
  lemma ArrayPatternRejectsNonNumericSize()
    ensures ParseArray("uint8[x]") == None
  {
    assert !IsDigit("x"[0]);
    assert "uint8" + "[" + "x" + "]" == "uint8[x]";
    ArrayPatternRejectsBadSize("uint8", "x");
  }

  // ---------------------------------------------------------------------------
  // The catalog

  /** One definition stored for a type: a bare string (array definitions and
      the legacy one-column layout) or a (field name, field type) pair. */
  datatype Entry = Plain(text: string) | Field(fieldName: string, fieldType: string)

  /** The type text of an entry: a field's type, or the plain text itself. */
  function EntryType(e: Entry): string {
    match e
    case Plain(s) => s
    case Field(_, t) => t
  }

  /** The type name a resolver recurses into for one definition. */
  function EntryTypeName(e: Entry): string {
    Trim(EntryType(e))
  }

  /** (category, definitions); the category is lower-cased text such as
      "basic", "array" or "struct", or anything else the sheet held. */
  datatype TypeDef = TypeDef(category: string, defs: seq<Entry>)

  type Catalog = map<string, TypeDef>

  /** `_is_array_type` */
  predicate IsArrayType(types: Catalog, t: string) {
    t in types && types[t].category == "array"
  }

  predicate IsStructType(types: Catalog, t: string) {
    t in types && types[t].category == "struct"
  }

  /** The names both resolvers recurse into from a defined type, in order:
      a basic alias's target, an array's base, every field type of a struct. */
  function Deps(types: Catalog, t: string): seq<string>
    requires t in types
  {
    var d := types[t];
    if |d.defs| == 0 then []
    else if d.category == "basic" then [EntryTypeName(d.defs[0])]
    else if d.category == "array" then
      match ParseArray(EntryType(d.defs[0]))
      case Some((base, _)) => [base]
      case None => []
    else if d.category == "struct" then MapSeq(d.defs, EntryTypeName)
    else []
  }

  /** The catalog's dependency graph is acyclic: rank strictly decreases
      along every dependency on a defined type. */
  ghost predicate Ranked(types: Catalog, rank: map<string, nat>) {
    forall t :: t in types ==>
      && t in rank
      && forall d :: d in Deps(types, t) && d in types ==> d in rank && rank[d] < rank[t]
  }
}
