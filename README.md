# AUTOSAR SWC spreadsheet and ARXML converters, modelled in Dafny

This project models two converters. The first turns a two-sheet workbook into an
AUTOSAR R4.0 ARXML software-component description. The sheets are `Types` and
`APIs`, and the converter is `SwcTaskArxmlGenerator.generate`. The second converts
back: it rebuilds the two sheets from an ARXML tree (`ArxmlToExcelConverter`).
Workbooks, XML trees, UUIDs and printing are taken away. What remains is the
transformation between rows of optional cell texts and abstract ARXML nodes.

Generation direction (`excel2arxml.py`):

- `TypeModel`:
  - the primitive spelling table (BASIC_TYPES);
  - the array pattern `^(\w+)\[(\d+)\]$` as a parser, with its soundness and completeness;
  - the name → (category, definitions) catalog.
- `TypeCatalog` is the Types-sheet reader. `ClassifyTypeRow` decides the action for one row; `RunRowActions` folds the actions over a cursor and the catalog. The reader also covers the one-column legacy post-pass and the imperative reader `ReadTypeDefinitions`.
- `ApiCatalog` is the APIs-sheet reader: skipped rows, default fill and the optional InitValue column.
- `TypeGraph` is the recursive, memoised, post-order walk both type passes perform, on a generic map of plans. It is proved terminating, and proved to emit each name at most once and to emit dependencies before dependents. An acyclic catalog always resolves, and a cycle is reported on the path. The class `Resolver` holds the memo set and the package, and does the walk imperatively against those functions. `ResolveUnchecked` is the IDT walk with no cycle check.
- `ApplicationTypes` and `ImplementationTypes` build the ADT and IDT plans from the catalog. They prove the two passes walk in lock step, so the IDT pass cannot recurse for ever once the ADT pass has succeeded.
- `Arxml` holds the generated nodes, the TYPE-TREF DEST choice, find-or-create packages, and the port and access-point shapes.
- `Assembly` holds the needed type names, one interface per API name, and the grouping by SWC and then by task.
- `Generation` is `generate` as a whole, from the sheets to the package tree.

Extraction direction (`arxml2excel.py`):

- `ArxmlView` is the part of an ARXML tree the extractor queries, flattened to values. It also holds `_get_type_reference` and the walk up to the owning component.
- `TypeExtraction` is `extract_types`. It includes the read-back lemmas: a generated array row, and a record's name row followed by its blank-name rows, are read by the type reader as the original definitions.
- `ApiExtraction` covers the runnable accesses, the event mapping, the interface types, the port mapping, the API rows, and de-duplication with "a non-default task wins".

`OrderedMaps` models Python's insertion-ordered dict, and a Python set iterated in first-occurrence order. `Text` models the string operations both scripts use.

## Model

| member | source | states |
|---|---|---|
| Text.Trim | script/arxmlgen/excel2arxml.py:110 | the result has no space at either end and is no longer than the input |
| Text.TrimLeftIsSuffix | script/arxmlgen/excel2arxml.py:110 | stripping the left removes only spaces and leaves a suffix of the text |
| Text.TrimRightIsPrefix | script/arxmlgen/excel2arxml.py:110 | stripping the right removes only spaces and leaves a prefix of the text |
| Text.TrimOfTrimmed | script/arxmlgen/excel2arxml.py:110 | strip is the identity on a text with no outer spaces, so stripping twice is stripping once |
| Text.LowerIsLowerText | script/arxmlgen/excel2arxml.py:111 | a lower-cased text has no upper-case letter |
| Text.LowerAt | script/arxmlgen/excel2arxml.py:114 | lower-casing maps each character on its own |
| Text.LowerOfLowerText | script/arxmlgen/excel2arxml.py:111 | lower-casing a text already in lower case changes nothing |
| Text.LowerKeepsTrimmed | script/arxmlgen/excel2arxml.py:111 | lower-casing a stripped text keeps it stripped |
| Text.Upper | script/arxmlgen/excel2arxml.py:201 | upper-casing keeps the length and maps each character on its own |
| Text.LastSegmentIsSuffix | script/arxmlgen/arxml2excel.py:39 | the last '/' segment has no '/', is a suffix of the text, and is preceded by '/' when shorter than it |
| Text.LastSegmentOfPath | script/arxmlgen/arxml2excel.py:39 | a package path followed by '/' and a name gives back that name |
| Text.IndexOf | script/arxmlgen/excel2arxml.py:142 | the index found is the first occurrence of the character; None exactly when the character does not occur |
| Text.IndexOfAt | script/arxmlgen/excel2arxml.py:142 | a first occurrence at k is the index found |
| Text.NatToString | script/arxmlgen/excel2arxml.py:322 | the decimal text of n is a non-empty digit string whose value is n |
| Sheet.ColumnIndex | script/arxmlgen/excel2arxml.py:82 | the column is the first whose header is exactly the name; None exactly when no header cell holds the name |
| OrderedMaps.Put | script/arxmlgen/arxml2excel.py:232 | an assignment to a dict key stores the value; a new key goes at the end of the key order and an existing key keeps its place |
| OrderedMaps.Distinct | script/arxmlgen/excel2arxml.py:533 | a set taken in first-occurrence order has no repeats and holds exactly the elements of the sequence |
| OrderedMaps.DistinctOrder | script/arxmlgen/excel2arxml.py:533 | the distinct elements come in the order of their first occurrence |
| OrderedMaps.DistinctSnoc | script/arxmlgen/excel2arxml.py:533 | a new element goes at the end of the distinct elements and a repeated one adds nothing |
| OrderedMaps.DistinctOfDistinct | script/arxmlgen/excel2arxml.py:533 | a sequence without repeats is its own distinct sequence |
| OrderedMaps.ValuesInOrder | script/arxmlgen/arxml2excel.py:314 | the values are listed in key order, one per key |
| OrderedMaps.GroupByContents | script/arxmlgen/excel2arxml.py:614-617 | the group keys are the distinct keys in first-occurrence order, and each group holds the values with that key, in order |
| OrderedMaps.Group | script/arxmlgen/excel2arxml.py:614-617 | the setdefault-and-append loop builds exactly the grouping |
| TypeModel.SizeGroup | script/arxmlgen/excel2arxml.py:47 | a size found is a digit string followed by ']' (and at most a final newline, as `$` allows) |
| TypeModel.MatchArrayPattern | script/arxmlgen/excel2arxml.py:47 | a match gives a word base and a digit size that rebuild the text |
| TypeModel.ArrayPatternComplete | script/arxmlgen/excel2arxml.py:47 | every text of the form word[digits] is matched, with that base and size |
| TypeModel.MatchFromParts | script/arxmlgen/excel2arxml.py:47 | a word before the first '[' followed by a digit size and ']' is a match with that base and size |
| TypeModel.SizeGroupComplete | script/arxmlgen/excel2arxml.py:47 | a digit string followed by ']' is read as the size |
| TypeModel.NoMatchWithoutSize | script/arxmlgen/excel2arxml.py:47 | without a digit size after the first '[' there is no match |
| TypeModel.ParseFormatArray | script/arxmlgen/excel2arxml.py:564-568 | parsing base[size] gives back the base and the size, for every word base and size |
| TypeModel.ArrayPatternAccepts | script/arxmlgen/excel2arxml.py:564-568 | "uint8[10]" parses as base uint8 and size 10 |
| TypeModel.ArrayPatternRejectsBareName | script/arxmlgen/excel2arxml.py:564-571 | "uint8" does not parse |
| TypeModel.ArrayPatternRejectsBadSize | script/arxmlgen/excel2arxml.py:564-571 | with a base free of '[', a size that is not a non-empty digit string does not parse |
| TypeModel.ArrayPatternRejectsEmptySize | script/arxmlgen/excel2arxml.py:564-571 | "uint8[]" does not parse |
| TypeModel.ArrayPatternRejectsNonNumericSize | script/arxmlgen/excel2arxml.py:564-571 | "uint8[x]" does not parse |
| TypeCatalog.TypeColumnsOf | script/arxmlgen/excel2arxml.py:71-84 | the header is accepted exactly when all four columns are present; each index found points at its column; a failure names the first missing column in the order Name, Category, Field Name, Definition, all earlier ones being present |
| TypeCatalog.FieldNameColumnAlwaysPresent | script/arxmlgen/excel2arxml.py:86-96 | once the header is accepted, the Field Name check always succeeds, so the legacy layout is never chosen |
| TypeCatalog.ClassifyTypeRows | script/arxmlgen/excel2arxml.py:101-132 | each row gets the action its own cells decide, in row order |
| TypeCatalog.ClassifyTypeRowsAppend | script/arxmlgen/excel2arxml.py:101-132 | classifying two runs of rows is classifying each |
| TypeCatalog.RunRowActionsAppend | script/arxmlgen/excel2arxml.py:101-132 | reading two runs of rows is reading the second from the state the first leaves |
| TypeCatalog.RunRowActionsFailurePersists | script/arxmlgen/excel2arxml.py:127-129 | once a row raises, the rows after it change nothing, and the read fails with that error |
| TypeCatalog.NameRowStartsType | script/arxmlgen/excel2arxml.py:109-126 | a named row moves the cursor to the trimmed name and leaves every other type unchanged; a basic self-reference adds nothing, otherwise the type gets the lower-cased category and at most one entry |
| TypeCatalog.AppendsExtendCurrent | script/arxmlgen/excel2arxml.py:127-129 | field appends extend the current type's list by exactly those fields, in order |
| TypeCatalog.ContinuationRowsAppend | script/arxmlgen/excel2arxml.py:127-129 | blank-name rows with a field name and a definition append their trimmed pairs to the current type, in row order |
| TypeCatalog.ContinuationOfSkippedTypeFails | script/arxmlgen/excel2arxml.py:114-116 | a continuation row after a skipped self-referencing basic row raises a missing-key error |
| TypeCatalog.CategoryOfShape | script/arxmlgen/excel2arxml.py:117 | a stored category is stripped and lower-case |
| TypeCatalog.NameRowDefsShape | script/arxmlgen/excel2arxml.py:119-126 | a name row stores stripped entries, and only (field, type) pairs for a struct |
| TypeCatalog.ClassifyTypeRowShape | script/arxmlgen/excel2arxml.py:101-132 | every row action carries stripped names, a lower-case category and stripped entries |
| TypeCatalog.ApplyRowActionShape | script/arxmlgen/excel2arxml.py:101-132 | one row keeps the catalog stripped and keeps struct entries as pairs |
| TypeCatalog.RunRowActionsShape | script/arxmlgen/excel2arxml.py:101-132 | the row loop keeps the catalog stripped and keeps struct entries as pairs |
| TypeCatalog.LegacyFields | script/arxmlgen/excel2arxml.py:139-150 | the post-pass rewrites every entry of a struct in place, keeping order and count |
| TypeCatalog.LegacyStructs | script/arxmlgen/excel2arxml.py:135-151 | the post-pass keeps the set of type names |
| TypeCatalog.LegacyFieldSplits | script/arxmlgen/excel2arxml.py:142-145 | "name:type" is split at the first ':' into the stripped name and type |
| TypeCatalog.LegacyFieldNumbers | script/arxmlgen/excel2arxml.py:146-149 | an entry without ':' is named Field<i+1> and keeps its text as the type |
| TypeCatalog.LegacyFieldShape | script/arxmlgen/excel2arxml.py:142-150 | every rewritten entry is a stripped (field, type) pair |
| TypeCatalog.ReadTypesShape | script/arxmlgen/excel2arxml.py:63-153 | a catalog that was read has stripped names, lower-case categories, and only (field, type) pairs in structs |
| TypeCatalog.NameRowEntries | script/arxmlgen/excel2arxml.py:117-126 | the entries a name row stores, computed by the branch on the category |
| TypeCatalog.ReadTypeRow | script/arxmlgen/excel2arxml.py:102-132 | one iteration of the row loop updates the cursor and the catalog as the row's action says |
| TypeCatalog.ReadTypeDefinitions | script/arxmlgen/excel2arxml.py:63-153 | the imperative reader returns the catalog that the header check, the row loop and the legacy post-pass define, or the first error |
| ApiCatalog.ApiColumnsOf | script/arxmlgen/excel2arxml.py:163-181 | the header is accepted exactly when the five required columns are present; a failure names the first missing one in column order; InitValue is optional |
| ApiCatalog.SafeValue | script/arxmlgen/excel2arxml.py:192-197 | a cell read as text is stripped |
| ApiCatalog.OrDefault | script/arxmlgen/excel2arxml.py:201-203 | a non-empty text is kept; an empty or missing one becomes the default |
| ApiCatalog.ReadApiDefinitions | script/arxmlgen/excel2arxml.py:155-208 | the imperative reader returns one record per kept row, in row order, or the missing-column error |
| ApiCatalog.KeptRows | script/arxmlgen/excel2arxml.py:186-190 | every kept row has a non-empty API name and a non-empty type reference |
| ApiCatalog.ApiRowsCount | script/arxmlgen/excel2arxml.py:184-206 | there is exactly one record per kept row, in order, built from that row |
| ApiCatalog.ApiOfRowDefaultFilled | script/arxmlgen/excel2arxml.py:199-203 | a record has stripped name and type, a non-empty upper-case direction, and a non-empty SWC and task |
| ApiCatalog.ApiRowsDefaultFilled | script/arxmlgen/excel2arxml.py:184-206 | every record built from the rows is default-filled |
| ApiCatalog.ReadApisDefaultFilled | script/arxmlgen/excel2arxml.py:155-208 | every record the reader returns is default-filled |
| ApiCatalog.ApiOfRowValues | script/arxmlgen/excel2arxml.py:199-204 | a record holds the stripped name and type; a direction, SWC or task cell with text after stripping is kept stripped (the direction upper-cased) and an absent or blank one takes "S", "DefaultSWC" or "DefaultTask"; the init value is the raw InitValue cell, or None without that column |
| ApiCatalog.DefaultsOfSparseRow | script/arxmlgen/excel2arxml.py:201-204 | absent or blank direction, SWC and task cells read as "S", "DefaultSWC" and "DefaultTask", and there is no initial value without an InitValue column |
| ApiCatalog.GivenDirectionUpperCased | script/arxmlgen/excel2arxml.py:201 | a direction cell " r " is read as "R" |
| TypeGraph.ResolveDepsSingle | script/arxmlgen/excel2arxml.py:555-560 | a type with a single dependency (a basic alias) resolves as that dependency does, with itself on the path |
| TypeGraph.ResolveFresh | script/arxmlgen/excel2arxml.py:541-547 | a walk emits each name at most once, never a name already created or on the path, emits a name's own node, and marks exactly what it emits |
| TypeGraph.ResolveDepsFresh | script/arxmlgen/excel2arxml.py:574-587 | resolving a type's dependencies emits fresh names only, and never the type itself |
| TypeGraph.ResolveAllFresh | script/arxmlgen/excel2arxml.py:595-596 | the walk over all needed names emits each name at most once |
| TypeGraph.ResolveOnlyCycles | script/arxmlgen/excel2arxml.py:536-593 | the checked walk never recurses for ever |
| TypeGraph.ResolveDepsOnlyCycles | script/arxmlgen/excel2arxml.py:574-587 | resolving dependencies with the check never recurses for ever |
| TypeGraph.ResolveAllOnlyCycles | script/arxmlgen/excel2arxml.py:595-596 | the walk over the needed names never recurses for ever |
| TypeGraph.ResolveMarks | script/arxmlgen/excel2arxml.py:547 | the memo set grows by exactly the names emitted |
| TypeGraph.ResolveDepsMarks | script/arxmlgen/excel2arxml.py:569 | resolving dependencies grows the memo set by exactly the names emitted |
| TypeGraph.ResolveAllMarks | script/arxmlgen/excel2arxml.py:587 | the whole walk grows the memo set by exactly the names emitted |
| TypeGraph.ResolveDepsFirst | script/arxmlgen/excel2arxml.py:561-587 | in a successful walk every dependency that emits a node is emitted, or already created, before its dependent; a name that emits is created |
| TypeGraph.ResolveDepsDepsFirst | script/arxmlgen/excel2arxml.py:577-586 | after a successful dependency loop every dependency that emits a node is created, and each was emitted before the types that use it |
| TypeGraph.ResolveAllDepsFirst | script/arxmlgen/excel2arxml.py:595-596 | after a successful walk every needed name that emits a node is created, and dependencies came first |
| TypeGraph.AcyclicResolves | script/arxmlgen/excel2arxml.py:539-540 | with a rank that decreases along dependencies, a walk whose path holds only higher-ranked names succeeds |
| TypeGraph.AcyclicResolvesDeps | script/arxmlgen/excel2arxml.py:539-540 | with such a rank, resolving dependencies never meets a cycle |
| TypeGraph.AcyclicResolvesAll | script/arxmlgen/excel2arxml.py:595-596 | with such a rank, the walk over any needed names succeeds |
| TypeGraph.CycleOnPath | script/arxmlgen/excel2arxml.py:539-540 | a cycle error names a type that is on the reported path, and that path extends the starting path |
| TypeGraph.CycleOnPathDeps | script/arxmlgen/excel2arxml.py:539-540 | a cycle met among the dependencies is reported with the type itself on the path |
| TypeGraph.ResolveAgain | script/arxmlgen/excel2arxml.py:541-542 | resolving a name again, once everything it created is created, emits nothing |
| TypeGraph.ResolveDepsAgain | script/arxmlgen/excel2arxml.py:541-542 | resolving dependencies again emits nothing |
| TypeGraph.ResolveAllAgain | script/arxmlgen/excel2arxml.py:600-602 | walking the needed names again emits nothing |
| TypeGraph.SameShapeResolve | script/arxmlgen/excel2arxml.py:254-291 | two plan maps with the same dependencies and the same emitting names walk alike, whatever their nodes |
| TypeGraph.SameShapeResolveDeps | script/arxmlgen/excel2arxml.py:254-291 | the same for the dependency loop |
| TypeGraph.SameShapeResolveAll | script/arxmlgen/excel2arxml.py:254-291 | the same for the walk over the needed names |
| TypeGraph.UncheckedAgrees | script/arxmlgen/excel2arxml.py:254-291 | where the checked walk succeeds, the walk without a cycle check gives the same result |
| TypeGraph.UncheckedAgreesDeps | script/arxmlgen/excel2arxml.py:283-289 | the same for the dependency loop |
| TypeGraph.UncheckedAgreesAll | script/arxmlgen/excel2arxml.py:599-602 | the same for the walk over the needed names |
| TypeGraph.UncheckedMirrors | script/arxmlgen/excel2arxml.py:254-291 | the unchecked walk is the checked walk with every cycle error turned into endless recursion |
| TypeGraph.UncheckedMirrorsDeps | script/arxmlgen/excel2arxml.py:283-289 | the same for the dependency loop |
| TypeGraph.UncheckedMirrorsAll | script/arxmlgen/excel2arxml.py:599-602 | the same for the walk over the needed names |
| TypeGraph.Resolver.Create | script/arxmlgen/excel2arxml.py:536-593 | the recursive method returns the walk's outcome, leaves the walk's memo set, and appends exactly the walk's nodes to the package |
| TypeGraph.Resolver.constructor | script/arxmlgen/excel2arxml.py:533-534 | a new resolver holds the plans, an empty memo set and an empty package |
| TypeGraph.Resolver.CreateDeps | script/arxmlgen/excel2arxml.py:574-587 | the dependency loop returns the outcome, and appends exactly the nodes, that the dependency walk defines |
| TypeGraph.Resolver.CreateAll | script/arxmlgen/excel2arxml.py:595-596 | the loop over the needed names stops at the first cycle and appends exactly the walk's nodes |
| TypeGraph.Resolver.CreateUnchecked | script/arxmlgen/excel2arxml.py:254-291 | the recursive IDT method returns the unchecked walk's outcome, memo set and appended nodes |
| TypeGraph.Resolver.CreateUncheckedDeps | script/arxmlgen/excel2arxml.py:283-289 | the IDT field loop appends exactly the unchecked dependency walk's nodes |
| TypeGraph.Resolver.CreateAllUnchecked | script/arxmlgen/excel2arxml.py:599-602 | the IDT loop over the needed names appends exactly the unchecked walk's nodes |
| ApplicationTypes.RecordField | script/arxmlgen/excel2arxml.py:577-585 | a record field takes the stripped field name and the entry's stripped type |
| ApplicationTypes.AdtPlanOf | script/arxmlgen/excel2arxml.py:544-591 | a defined type depends on its definitions' types, and emits a node named after itself exactly when it is a struct with fields or an array whose first definition parses |
| ApplicationTypes.AdtPlansCover | script/arxmlgen/excel2arxml.py:544-550 | the plans cover the defined names and the primitive spellings; an undefined primitive emits a primitive ADT, and other undefined names are skipped |
| ApplicationTypes.AdtPassEmitsOnce | script/arxmlgen/excel2arxml.py:541-547 | the ADT pass emits each name at most once, marks exactly what it emits, and each node carries its name |
| ApplicationTypes.AdtPassDepsFirst | script/arxmlgen/excel2arxml.py:561-587 | a successful ADT pass emits array bases and field types before the types that use them, and creates every needed name that emits a node |
| ApplicationTypes.AcyclicCatalogPasses | script/arxmlgen/excel2arxml.py:539-540 | a catalog whose types can be ranked below their dependents never raises the cycle error |
| ApplicationTypes.AdtPassAgain | script/arxmlgen/excel2arxml.py:541-542 | a second pass over the same names from the final memo set emits nothing |
| ApplicationTypes.NestedPrimitivePlan | script/arxmlgen/excel2arxml.py:544-547 | an undefined uint8 is planned as a primitive ADT |
| ApplicationTypes.Uint8ArrayOfFour | script/arxmlgen/excel2arxml.py:564-568 | "uint8[4]" parses as base uint8 and size 4 |
| ApplicationTypes.NestedArrayPlanOf | script/arxmlgen/excel2arxml.py:561-569 | an array defined as uint8[4] depends on uint8 and emits a four-element array ADT |
| ApplicationTypes.NestedArrayPlan | script/arxmlgen/excel2arxml.py:561-569 | the same, as a plan of the whole catalog |
| ApplicationTypes.NestedRecordPlanOf | script/arxmlgen/excel2arxml.py:574-587 | a struct with fields a:uint8 and b:Array4 depends on both types, in field order, and emits a record with those elements |
| ApplicationTypes.NestedRecordPlan | script/arxmlgen/excel2arxml.py:574-587 | the same, as a plan of the whole catalog |
| ApplicationTypes.NestedWalkLeaf | script/arxmlgen/excel2arxml.py:544-547 | resolving the primitive emits its node once and marks it |
| ApplicationTypes.NestedWalkArray | script/arxmlgen/excel2arxml.py:561-569 | resolving the array after its base emits only the array |
| ApplicationTypes.NestedWalkDeps | script/arxmlgen/excel2arxml.py:577-585 | the struct's field loop emits uint8 and then Array4 |
| ApplicationTypes.NestedWalkLastDep | script/arxmlgen/excel2arxml.py:577-585 | the second field, after the first, emits only Array4 |
| ApplicationTypes.NestedWalk | script/arxmlgen/excel2arxml.py:536-593 | the whole walk from S emits uint8, Array4 and S in that order |
| ApplicationTypes.NestedTypesOrder | script/arxmlgen/excel2arxml.py:595-596 | the ADT pass over S emits the primitive, the array and the record in dependency order, with their nodes |
| ApplicationTypes.CyclicPlans | script/arxmlgen/excel2arxml.py:574-587 | two structs that hold each other depend on each other |
| ApplicationTypes.CyclicWalk | script/arxmlgen/excel2arxml.py:539-540 | a walk from A meets A again on the path A, B and fails before emitting anything |
| ApplicationTypes.CyclicTypesFail | script/arxmlgen/excel2arxml.py:539-540 | the ADT pass over mutually recursive structs raises the cycle error on A and emits nothing |
| ApplicationTypes.CreateApplicationTypes | script/arxmlgen/excel2arxml.py:533-596 | the imperative ADT pass returns the pass's outcome and package |
| ImplementationTypes.IdtPlanOf | script/arxmlgen/excel2arxml.py:262-291 | a defined type has the same dependencies and the same emitting condition as in the ADT plan |
| ImplementationTypes.IdtPlansCover | script/arxmlgen/excel2arxml.py:257-261 | the IDT plans cover the defined names and the primitive spellings, with a value IDT for an undefined primitive |
| ImplementationTypes.PlansSameShape | script/arxmlgen/excel2arxml.py:254-291 | the ADT and IDT plans have the same shape |
| ImplementationTypes.IdtPassMirrorsAdtPass | script/arxmlgen/excel2arxml.py:599-602 | the IDT pass creates and emits exactly what the ADT pass does, and recurses for ever exactly where the ADT pass would raise |
| ImplementationTypes.IdtPassEmitsOnce | script/arxmlgen/excel2arxml.py:599-602 | after a successful ADT pass, the IDT pass succeeds, emits each name once, and emits dependencies first |
| ImplementationTypes.AcyclicCatalogIdtPasses | script/arxmlgen/excel2arxml.py:254-291 | on a rankable catalog the IDT pass terminates |
| ImplementationTypes.CyclicTypesRecurse | script/arxmlgen/excel2arxml.py:283-287 | on mutually recursive structs the IDT pass, having no cycle check, would recurse for ever |
| ImplementationTypes.CreateImplementationTypes | script/arxmlgen/excel2arxml.py:598-602 | the imperative IDT pass returns the pass's outcome and package |
| Arxml.DestOf | script/arxmlgen/excel2arxml.py:340-345 | the TYPE-TREF DEST is the array type exactly for array names and the record type exactly for struct names |
| Arxml.AppArrayNode | script/arxmlgen/excel2arxml.py:305-323 | an array ADT carries its name and a TYPE-TREF to its base under ApplicationDataTypes |
| Arxml.RecordElements | script/arxmlgen/excel2arxml.py:335-346 | one record element per field, in order, with the field name, a TYPE-TREF to its type and the DEST chosen for it |
| Arxml.ImplValueNode | script/arxmlgen/excel2arxml.py:211-216 | a primitive IDT carries its name and the canonical category of its spelling |
| Arxml.ImplStructNode | script/arxmlgen/excel2arxml.py:217-232 | a struct IDT has one sub-element per field, in order, referring to the field type under ImplementationDataTypes |
| Arxml.ImplElements | script/arxmlgen/excel2arxml.py:221-232 | the sub-elements are the fields in order with their implementation references |
| Arxml.InterfaceNode | script/arxmlgen/excel2arxml.py:394-426 | the interface and its data element are named after the API; the DEST follows the type; an initial value is written exactly when a default is given and the type is neither an array nor a struct |
| Arxml.PortNode | script/arxmlgen/excel2arxml.py:428-443 | a port is an R-port exactly when the direction is 'R', and it refers to its interface's data element |
| Arxml.TaskComponent | script/arxmlgen/excel2arxml.py:475 | the component part of a task is the text before its first '_', or the whole task when it has none |
| Arxml.FindPackage | script/arxmlgen/excel2arxml.py:360-361 | the package found is the first with the name; none is found when no package has it |
| Arxml.FindPackageUnique | script/arxmlgen/excel2arxml.py:360-361 | the first package with the name is the one found |
| Arxml.WithElements | script/arxmlgen/excel2arxml.py:362-364 | a package without ELEMENTS gets an empty one, and one with ELEMENTS is unchanged |
| Arxml.EnsurePackage | script/arxmlgen/excel2arxml.py:356-369 | the first package with the name is reused at its place and only gains an empty ELEMENTS if it had none; when no package has the name, a new one with ELEMENTS is appended; every other package is unchanged |
| Arxml.EnsurePackageNames | script/arxmlgen/excel2arxml.py:356-369 | an existing package is reused at its place; otherwise one is appended at the end; no other name changes |
| Arxml.EnsurePackageIdempotent | script/arxmlgen/excel2arxml.py:356-369 | ensuring the same package twice is ensuring it once |
| Arxml.EnsureSubpackage | script/arxmlgen/excel2arxml.py:371-391 | the parent is the first package with its name, or a new package without ELEMENTS appended at the end; its ELEMENTS are kept and its sub-packages are ensured as EnsurePackage does for the child; every other package is unchanged |
| Arxml.EnsureSubpackageIdempotent | script/arxmlgen/excel2arxml.py:371-391 | ensuring the same sub-package twice is ensuring it once |
| Arxml.AppendToPackage | script/arxmlgen/excel2arxml.py:621 | appending puts the element at the end of that package's ELEMENTS and changes no other package |
| Assembly.NeededTypes | script/arxmlgen/excel2arxml.py:533 | the needed types are the API type references without repeats, in first-occurrence order |
| Assembly.NamesSeen | script/arxmlgen/excel2arxml.py:605-611 | the set of interfaces created holds exactly the API names seen so far |
| Assembly.InterfacesOfAt | script/arxmlgen/excel2arxml.py:609 | each interface is built from its entry's name, type reference and initial value |
| Assembly.FirstApi | script/arxmlgen/excel2arxml.py:606-611 | the first entry with a name is an entry with that name |
| Assembly.FirstApiOfPrefix | script/arxmlgen/excel2arxml.py:606-611 | a later entry does not change the first entry of a name already seen |
| Assembly.FirstApiOfNew | script/arxmlgen/excel2arxml.py:606-611 | an entry with a new name is the first entry of that name |
| Assembly.NewNameEntriesFirst | script/arxmlgen/excel2arxml.py:606-611 | the entries that create an interface are, name by name in first-occurrence order, the first entry with that name |
| Assembly.InterfacesOnePerName | script/arxmlgen/excel2arxml.py:605-611 | there is exactly one interface per distinct API name, in first-occurrence order, built from that name's first entry |
| Assembly.InterfacesStep | script/arxmlgen/excel2arxml.py:606-611 | one entry adds an interface exactly when its name is new |
| Assembly.CreateInterfaces | script/arxmlgen/excel2arxml.py:605-611 | the imperative interface loop builds exactly one interface per new name |
| Assembly.RunnablesOf | script/arxmlgen/excel2arxml.py:645-653 | one runnable per task |
| Assembly.TaskEventsOf | script/arxmlgen/excel2arxml.py:656-661 | one task event per task |
| Assembly.ComponentsOf | script/arxmlgen/excel2arxml.py:619-661 | one component per SWC name |
| Assembly.ComponentsOnePerSwc | script/arxmlgen/excel2arxml.py:614-623 | there is exactly one component per distinct SWC, in first-occurrence order, named after it |
| Assembly.ComponentNodePorts | script/arxmlgen/excel2arxml.py:625-627 | a component has one port per entry of its group, in entry order |
| Assembly.ComponentAt | script/arxmlgen/excel2arxml.py:619-627 | the j-th component is named after the j-th SWC and its ports come from exactly that SWC's entries |
| Assembly.EntryPortPlaced | script/arxmlgen/excel2arxml.py:626-627 | every API entry's port is in its own SWC's component |
| Assembly.ComponentPortSource | script/arxmlgen/excel2arxml.py:626-627 | every port of a component comes from an entry of that SWC |
| Assembly.ComponentPorts | script/arxmlgen/excel2arxml.py:614-627 | both directions at once: each entry's port is placed in its SWC's component, and each component port comes from an entry of that SWC |
| Assembly.ComponentRunnables | script/arxmlgen/excel2arxml.py:635-661 | one runnable and one task event per distinct task of the component, in first-occurrence order, each named after its task, whose event refers to /Components/swc/swc_InternalBehavior/task |
| Assembly.AccessPointsHas | script/arxmlgen/excel2arxml.py:460-499 | every access that yields a point is among the runnable's access points |
| Assembly.EntryAccessPoint | script/arxmlgen/excel2arxml.py:636-653 | every entry with direction R or S has its access point in the runnable of its task |
| Assembly.CreatePorts | script/arxmlgen/excel2arxml.py:625-627 | the imperative port loop builds one port per entry |
| Assembly.CreateRunnables | script/arxmlgen/excel2arxml.py:635-661 | the imperative task loop builds the runnables and task events of the distinct tasks |
| Assembly.AssembleComponent | script/arxmlgen/excel2arxml.py:619-661 | the imperative component body builds the component node |
| Assembly.CreateComponents | script/arxmlgen/excel2arxml.py:614-661 | the imperative SWC loop builds one component per distinct SWC |
| Generation.DocumentOf | script/arxmlgen/excel2arxml.py:524-531 | a generated document starts with the DataTypes package, followed by Components when there is one |
| Generation.DataTypesPackageLayout | script/arxmlgen/excel2arxml.py:529-531 | DataTypes holds ApplicationDataTypes with the ADTs, and ImplementationDataTypes with the IDTs and then the interfaces |
| Generation.PassesAligned | script/arxmlgen/excel2arxml.py:595-602 | after a successful ADT pass, the ADT and IDT packages name the same types in the same order, without repeats |
| Generation.ComponentsPackageLayout | script/arxmlgen/excel2arxml.py:619-623 | the Components package holds one component per SWC, in order |
| Generation.ComponentsExist | script/arxmlgen/excel2arxml.py:614-620 | there are components exactly when there are API entries |
| Generation.GenerateFailsOnlyOnCycles | script/arxmlgen/excel2arxml.py:539-540 | generation fails exactly when the ADT pass raises, and then with that cycle error |
| Generation.AcyclicCatalogGenerates | script/arxmlgen/excel2arxml.py:507-661 | a rankable catalog always generates a document |
| Generation.GeneratedDataTypes | script/arxmlgen/excel2arxml.py:529-611 | a generated DataTypes package lists the ADTs and IDTs of the emitted names, and then one interface per API name |
| Generation.GeneratedComponents | script/arxmlgen/excel2arxml.py:614-661 | a generated document has a Components package exactly when there are API entries, with one component per distinct SWC |
| Generation.NeededOne | script/arxmlgen/excel2arxml.py:533 | a single API entry needs exactly its type |
| Generation.CyclicCatalogFails | script/arxmlgen/excel2arxml.py:539-540 | an API typed by a struct in a cycle makes generation fail with the cycle error |
| Generation.AppendToSubpackage | script/arxmlgen/excel2arxml.py:546 | appending to a sub-package extends its ELEMENTS and leaves the other sub-packages alone |
| Generation.EnsureApplicationDataTypes | script/arxmlgen/excel2arxml.py:529 | on an empty document the first call creates DataTypes/ApplicationDataTypes |
| Generation.EnsureImplementationDataTypes | script/arxmlgen/excel2arxml.py:531 | the second call adds ImplementationDataTypes beside it |
| Generation.ComponentsLoopStep | script/arxmlgen/excel2arxml.py:620-621 | each iteration finds or creates Components and appends one component |
| Generation.DataTypesFilled | script/arxmlgen/excel2arxml.py:529-611 | filling both sub-packages gives the DataTypes package |
| Generation.FillDataTypes | script/arxmlgen/excel2arxml.py:529-611 | the imperative fill builds the DataTypes package |
| Generation.CreateDataTypes | script/arxmlgen/excel2arxml.py:529-611 | the type passes and the interface loop give the pass's outcome and, without a cycle, the DataTypes package |
| Generation.AddComponents | script/arxmlgen/excel2arxml.py:619-621 | the SWC loop adds a Components package after DataTypes exactly when there is a component |
| Generation.Generate | script/arxmlgen/excel2arxml.py:507-661 | the imperative generate returns the document the passes define, or the cycle error |
| Generation.GenerateFromSheets | script/arxmlgen/excel2arxml.py:507-509 | a Types sheet that cannot be read stops generation with its error |
| Generation.GenerateFromSheetsOutcome | script/arxmlgen/excel2arxml.py:507-509 | a document is generated exactly when both sheets are read and the needed types have no cycle; an APIs-sheet error is reported when the types were read |
| Generation.GenerateArxml | script/arxmlgen/excel2arxml.py:507-661 | the imperative run from both sheets returns exactly what the sheets define |
| ArxmlView.TypeReference | script/arxmlgen/arxml2excel.py:34-46 | there is a reference exactly when the TYPE-TREF or the IMPLEMENTATION-DATA-TYPE-REF has text |
| ArxmlView.TypeReferenceIsSuffix | script/arxmlgen/arxml2excel.py:37-44 | the reference has no '/' and is a suffix of the TYPE-TREF when that has text, otherwise of the IMPLEMENTATION-DATA-TYPE-REF |
| ArxmlView.TypeReferenceOfPath | script/arxmlgen/arxml2excel.py:37-39 | a TYPE-TREF path ending in a name gives that name, whatever the other reference |
| ArxmlView.TypeReferenceFallsBack | script/arxmlgen/arxml2excel.py:42-44 | without TYPE-TREF text, an IMPLEMENTATION-DATA-TYPE-REF path ending in a name gives that name |
| ArxmlView.TrailingSlashLosesReference | script/arxmlgen/arxml2excel.py:38-39 | a TYPE-TREF ending in '/' gives the empty reference |
| ArxmlView.NearestComponentAt | script/arxmlgen/arxml2excel.py:322-327 | the SWC is the SHORT-NAME of the nearest ancestor whose tag ends in APPLICATION-SW-COMPONENT-TYPE |
| ArxmlView.NoComponentNoName | script/arxmlgen/arxml2excel.py:328 | with no component ancestor there is no SWC name |
| ArxmlView.SwcNameForPort | script/arxmlgen/arxml2excel.py:319-328 | the parent walk returns the nearest component's name |
| TypeExtraction.PrimitiveRows | script/arxmlgen/arxml2excel.py:56-59 | every primitive row is [name, "basic", "", name] for a name in the extractor's list |
| TypeExtraction.PrimitiveRowsKept | script/arxmlgen/arxml2excel.py:56-59 | a primitive row is written exactly when the document has that name and the list holds it |
| TypeExtraction.ExtractorPrimitivesAreBasic | script/arxmlgen/arxml2excel.py:58 | every spelling the extractor keeps is in the generator's spelling table |
| TypeExtraction.ExtractorMissesSpellings | script/arxmlgen/arxml2excel.py:58 | bool, SInt8, SInt16, SInt32 and SInt64 are primitives for the generator but are dropped by the extractor |
| TypeExtraction.ExtractorListShape | script/arxmlgen/arxml2excel.py:58 | every kept spelling has at least five characters and none starts with "SI" |
| TypeExtraction.ArrayRows | script/arxmlgen/arxml2excel.py:63-71 | at most one array row per array type |
| TypeExtraction.MemberRows | script/arxmlgen/arxml2excel.py:82-91 | at most one row per record element |
| TypeExtraction.MemberRowsStart | script/arxmlgen/arxml2excel.py:86-88 | when the first element is complete, the first row carries the record's name and "struct" |
| TypeExtraction.MemberRowsBlank | script/arxmlgen/arxml2excel.py:89-91 | every later row (all rows when the first element is dropped) has blank name and category |
| TypeExtraction.ExtractTypes | script/arxmlgen/arxml2excel.py:48-94 | the imperative extractor returns the primitive, then array, then record rows |
| TypeExtraction.AppendPrimitiveRows | script/arxmlgen/arxml2excel.py:56-59 | the primitive loop appends exactly the primitive rows |
| TypeExtraction.AppendArrayRows | script/arxmlgen/arxml2excel.py:63-71 | the array loop appends exactly the array rows |
| TypeExtraction.AppendRecordsRows | script/arxmlgen/arxml2excel.py:76-91 | the record loop appends exactly the record rows |
| TypeExtraction.AppendMemberRows | script/arxmlgen/arxml2excel.py:82-91 | the element loop appends exactly one record's rows |
| TypeExtraction.TypesHeaderColumns | script/arxmlgen/excel2arxml.py:71-96 | the written header is accepted by the type reader, with a Field Name column |
| TypeExtraction.CategoryOfLiteral | script/arxmlgen/excel2arxml.py:117 | a category written in lower case without outer spaces reads back unchanged |
| TypeExtraction.ArrayEntries | script/arxmlgen/excel2arxml.py:123-126 | an array row with a stripped definition stores exactly that definition |
| TypeExtraction.PrimitiveRowIsSkipped | script/arxmlgen/excel2arxml.py:111-116 | a written primitive row is read back as a skipped self-reference: the cursor moves but nothing is stored |
| TypeExtraction.NameRowClassified | script/arxmlgen/excel2arxml.py:109-126 | a named row that is not a self-reference starts the type with its category and first entry |
| TypeExtraction.ArrayRowClassified | script/arxmlgen/excel2arxml.py:123-126 | a named array row starts an array type whose one entry is the definition |
| TypeExtraction.GeneratedArrayRow | script/arxmlgen/arxml2excel.py:63-71 | a generated array is written as [name, "array", "", "base[size]"] |
| TypeExtraction.GeneratedArrayReadsBack | script/arxmlgen/arxml2excel.py:63-71 | a generated array is written, read back as an array type, and its definition parses as the original base and size |
| TypeExtraction.FormatArrayTrimmed | script/arxmlgen/arxml2excel.py:71 | a written array definition is non-empty and has no outer spaces |
| TypeExtraction.FieldsOf | script/arxmlgen/arxml2excel.py:82-91 | one (field name, type) entry per element, in order |
| TypeExtraction.ContinuationRowIsField | script/arxmlgen/arxml2excel.py:89-91 | a blank-name element row is a continuation row for that field |
| TypeExtraction.MemberRowsSplit | script/arxmlgen/arxml2excel.py:82-91 | a record's rows are its name row followed by one blank-name row per later element |
| TypeExtraction.StructRowClassified | script/arxmlgen/excel2arxml.py:120-122 | a record's name row starts a struct holding its first field |
| TypeExtraction.ContinuationRowsOf | script/arxmlgen/arxml2excel.py:89-91 | after its name row, each row of a record is a continuation row for the matching later field |
| TypeExtraction.StartThenAppends | script/arxmlgen/excel2arxml.py:117-129 | a struct name row followed by continuation rows stores the struct with its first field and then those fields, in order |
| TypeExtraction.RecordRowsReadBack | script/arxmlgen/arxml2excel.py:82-91 | the rows written for a record with complete elements are read back as a struct with exactly those fields, in order |
| TypeExtraction.FirstElementDroppedLosesRecord | script/arxmlgen/arxml2excel.py:85-91 | when the first element is dropped, no name row is written, and the reader appends the remaining fields to the previous type |
| ApiExtraction.AccessEntry | script/arxmlgen/arxml2excel.py:122-138 | an access yields an entry exactly when both references are present, with the given direction |
| ApiExtraction.AccessEntryOfPaths | script/arxmlgen/arxml2excel.py:130-131 | the entry carries the last segments of the port and target references |
| ApiExtraction.AccessEntries | script/arxmlgen/arxml2excel.py:117-162 | at most one entry per access, each with the given direction |
| ApiExtraction.AccessEntriesAllPresent | script/arxmlgen/arxml2excel.py:117-162 | when every access has both references there is exactly one entry per access, in order |
| ApiExtraction.RunnableEntities | script/arxmlgen/arxml2excel.py:99-115 | the runnable table is a well-formed dict |
| ApiExtraction.RepeatedRunnableResets | script/arxmlgen/arxml2excel.py:111-114 | a named runnable replaces whatever an earlier runnable of that name collected, keeping its key position |
| ApiExtraction.UnnamedRunnableSkipped | script/arxmlgen/arxml2excel.py:107-108 | a runnable without a name changes nothing |
| ApiExtraction.RunnableEntitiesNames | script/arxmlgen/arxml2excel.py:105-114 | the keys are exactly the non-empty runnable names |
| ApiExtraction.CollectAccesses | script/arxmlgen/arxml2excel.py:117-138 | the imperative access loop collects exactly the entries |
| ApiExtraction.ExtractRunnableEntities | script/arxmlgen/arxml2excel.py:96-165 | the imperative runnable loop builds exactly the runnable table |
| ApiExtraction.ExtractEventsAndTasks | script/arxmlgen/arxml2excel.py:167-184 | the event mapping's keys are the distinct event names, and each maps to itself |
| ApiExtraction.InterfaceTypes | script/arxmlgen/arxml2excel.py:202-211 | the interface table is a well-formed dict |
| ApiExtraction.InterfaceTypeOfPath | script/arxmlgen/arxml2excel.py:203-211 | a named interface whose data element refers to a path ending in a name is recorded with that name as its type |
| ApiExtraction.UntypedInterfaceSkipped | script/arxmlgen/arxml2excel.py:205-210 | an interface without a data element or a type reference adds nothing |
| ApiExtraction.ExtractInterfaceTypes | script/arxmlgen/arxml2excel.py:202-211 | the imperative loop builds exactly the interface table |
| ApiExtraction.SwcCell | script/arxmlgen/arxml2excel.py:235 | the SWC cell is never empty: the name when there is one, otherwise " " |
| ApiExtraction.PortsInto | script/arxmlgen/arxml2excel.py:224-251 | the port loop keeps the mapping well-formed |
| ApiExtraction.PortMapping | script/arxmlgen/arxml2excel.py:221-251 | the port mapping is a well-formed dict |
| ApiExtraction.PortsIntoEntries | script/arxmlgen/arxml2excel.py:224-251 | after a port loop an interface is mapped exactly when it was before or a port refers to it; a referenced one has the loop's direction, and others are unchanged |
| ApiExtraction.PortDirection | script/arxmlgen/arxml2excel.py:239-251 | an interface is "R" exactly when an R-port refers to it, because R-ports overwrite P-ports |
| ApiExtraction.PortMappingKeys | script/arxmlgen/arxml2excel.py:224-251 | the mapped interfaces are exactly those a P-port or an R-port refers to |
| ApiExtraction.ExtractPortMapping | script/arxmlgen/arxml2excel.py:221-251 | the imperative port loops build exactly the port mapping |
| ApiExtraction.PortRows | script/arxmlgen/arxml2excel.py:256-269 | one row per mapped interface |
| ApiExtraction.PortRowAt | script/arxmlgen/arxml2excel.py:256-269 | each port row is the interface, its type or UnknownType, the mapped direction and SWC, and task " " |
| ApiExtraction.SwcIsFirstMapped | script/arxmlgen/arxml2excel.py:286-289 | the reassigned SWC variable equals the SWC of the first mapped port access, or " " |
| ApiExtraction.FirstMappedSwcSnoc | script/arxmlgen/arxml2excel.py:286-289 | one more access changes the first mapped SWC only while none has been found |
| ApiExtraction.FirstMappedSwcKeeps | script/arxmlgen/arxml2excel.py:286-289 | once a mapped SWC is found, later accesses do not change it |
| ApiExtraction.SwcStaysFixed | script/arxmlgen/arxml2excel.py:286-289 | once the SWC is taken from the mapping, later accesses of the runnable do not change it |
| ApiExtraction.RunnableRowsOf | script/arxmlgen/arxml2excel.py:279-300 | one row per port access |
| ApiExtraction.RunnableRowAt | script/arxmlgen/arxml2excel.py:279-300 | each runnable row is the interface, its type or UnknownType, the mapped direction when mapped, the SWC so far, and the runnable's task |
| ApiExtraction.Dedup | script/arxmlgen/arxml2excel.py:303-311 | the de-duplication table is a well-formed dict |
| ApiExtraction.Chosen | script/arxmlgen/arxml2excel.py:303-311 | the kept row for a name is one of the rows with that name |
| ApiExtraction.ChosenTask | script/arxmlgen/arxml2excel.py:309-311 | the kept row has task " " exactly when no row with that name has another task |
| ApiExtraction.ChosenOther | script/arxmlgen/arxml2excel.py:304-311 | a row for another name does not change the kept row |
| ApiExtraction.ChosenNew | script/arxmlgen/arxml2excel.py:309-311 | the first row of a name is kept |
| ApiExtraction.ChosenRepeat | script/arxmlgen/arxml2excel.py:309-311 | a later row replaces the kept one exactly when its task is not " " and the kept task is " " |
| ApiExtraction.DedupKeeps | script/arxmlgen/arxml2excel.py:303-311 | the keys are the distinct names in first-insertion order, and each maps to its chosen row |
| ApiExtraction.ExtractedApisChosen | script/arxmlgen/arxml2excel.py:303-314 | the output lists, name by name in first-insertion order, the chosen row |
| ApiExtraction.ExtractedApisNames | script/arxmlgen/arxml2excel.py:303-314 | the output names are the distinct names of the port and runnable rows, without repeats |
| ApiExtraction.PortApiRows | script/arxmlgen/arxml2excel.py:256-269 | the imperative port-row loop builds exactly the port rows |
| ApiExtraction.PortAccessRows | script/arxmlgen/arxml2excel.py:279-300 | the imperative access loop, with its reassigned SWC, builds exactly the runnable rows |
| ApiExtraction.RunnableApiRows | script/arxmlgen/arxml2excel.py:271-300 | the imperative runnable loop builds exactly the rows of every runnable, in key order |
| ApiExtraction.Deduplicate | script/arxmlgen/arxml2excel.py:303-314 | the imperative de-duplication returns the kept rows in key order |
| ApiExtraction.ExtractApis | script/arxmlgen/arxml2excel.py:186-317 | the imperative extract_apis returns the de-duplicated port and runnable rows |

## Left out

- Workbook and XML I/O are not modelled: openpyxl loading, saving and styling, lxml element creation, namespaces, XPath evaluation, serialisation and file writes. Rows are sequences of optional cell texts. The ARXML tree is an abstract package datatype on the generation side, and a flattened view of what the extractor queries on the extraction side.
- UUIDs, the export-time comment and every print diagnostic are left out. A warning becomes "emits nothing".
- Constant XML boilerplate is not modelled (COM-SPEC constants, SW-CALIBRATION-ACCESS, MINIMUM-START-INTERVAL, CAN-BE-INVOKED-CONCURRENTLY).
- Cells are text only. A numeric cell would be converted by str() in the source; the model takes that text as given, and the initial value is kept as text.
- `all_types_needed` is a Python set, so its iteration order is unspecified. The model iterates it in first-occurrence order.
- The IDT pass has no cycle check, and on a cycle the source recurses until Python stops it. The model returns an endless-recursion outcome where the name re-enters its own path; `ResolveUnchecked` carries that path only to say so.
- ImplementationTypes.IdtPlanOf requires every struct entry to be a (field, type) pair. This always holds for a catalog the reader produced (TypeCatalog.ReadTypesShape), because the legacy post-pass turns every entry into a pair.
- Text.Trim: only the ASCII characters Python counts as whitespace (codes 9 to 13 and 28 to 32) are stripped. Python's str.strip also removes Unicode whitespace such as U+00A0 and U+3000, so a cell "uint8" followed by a no-break space is read as uint8 by the source and kept unchanged by the model.
- Text.Lower: only ASCII letters are case-mapped, one character for one. Python's str.lower maps other letters too, and some to two characters ('İ'), so a category outside ASCII may compare differently.
- Text.LowerAt: the per-character mapping it states holds for the ASCII case mapping the model uses, not for Python's full Unicode lower(), where the length can change.
- Text.Upper: only ASCII letters are case-mapped, and the length is kept. Python's str.upper changes the length for 'ß' ('SS') and maps 'ſ' to 'S', so a direction cell "ſ" is read as a sender by the source and not by the model.
- The array pattern is modelled on the ASCII subset of `\w` and `\d`. Unicode word characters and digits are not.
- Generation.GenerateFromSheets: reading the sheets and finding the DataTypes packages are composed as functions. The model's document has the DataTypes package first and Components second. This is the order the source creates them in.
- Interfaces are appended to the ImplementationDataTypes package after the IDTs, as the source does. The ADT and IDT packages are built first and then copied into the tree.
- The extractor's view flattens each runnable's receive points and send points into two access lists. Access names (`access_name`) are read but never used by the source, and are not modelled.
- ArxmlView.TypeReference and ApiExtraction.AccessEntry model a reference element as an optional text. In the source, a PORT-PROTOTYPE-REF or TARGET-DATA-PROTOTYPE-REF present without text raises at `.text.split`. The model reads Some as "present with text", so that crash is not modelled.
- The event mapping can hold a None key for an unnamed event. The model keeps it as the key None. It never matches a runnable name.
- A runnable-derived row's Task cell is the runnable's own name whenever the event mapping holds it, which is always the case for a runnable under RUNNABLES. Other runnables get " ".
- TypeExtraction.ExtractTypes: the source's three loops that append to one list are modelled as three methods that thread the list, one per loop.
- The sheet writer `create_excel` and the `convert` wrappers are I/O and are not modelled.

Behaviour of the source that the model keeps as written:

- A `basic` name row never stores its definition: the list starts empty, and only struct and array rows add an entry. A basic alias therefore resolves to nothing unless a continuation row follows it.
- The legacy branch for a sheet without a Field Name column is dead code. Once the header check passes, the Field Name check always succeeds (TypeCatalog.FieldNameColumnAlwaysPresent).
- The extractor's primitive list lacks bool, SInt8, SInt16, SInt32 and SInt64, and repeats Sint8 and similar spellings instead.
- Runnables are keyed by name in the extractor, so a task name used in two SWCs keeps only the later runnable's accesses.
- The port reference of an access point uses the part of a task name before its first '_' as the component, not the SWC.
