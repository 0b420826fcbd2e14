/** `generate` of the Excel-to-ARXML converter as a whole: read both sheets,
    ensure the DataTypes/ApplicationDataTypes and
    DataTypes/ImplementationDataTypes packages, run the application-data-type
    pass (a cycle aborts the run), run the implementation-data-type pass into
    the implementation package, append one interface per API name after it,
    and put one component per SWC into a Components package. The document is
    the list of AR-PACKAGE elements under AR-PACKAGES. */
module Generation {
  import opened Wrappers
  import opened OrderedMaps
  import opened TypeModel
  import opened Sheet
  import opened TypeCatalog
  import opened ApiCatalog
  import opened Arxml
  import opened TypeGraph
  import opened ApplicationTypes
  import opened ImplementationTypes
  import opened Assembly

  /** Why `generate` stops without writing a document: a sheet that cannot
      be read, or the ValueError of a type met again on its own path. */
  datatype GenError =
    | ReadFailed(error: ReadError)
    | CyclicType(name: string, path: set<string>)

  function AdtElements(nodes: seq<AdtNode>): seq<PackageElement> {
    MapSeq(nodes, (n: AdtNode) => AdtElement(n))
  }

  function IdtElements(nodes: seq<IdtNode>): seq<PackageElement> {
    MapSeq(nodes, (n: IdtNode) => IdtElement(n))
  }

  function InterfaceElements(ifaces: seq<SrInterface>): seq<PackageElement> {
    MapSeq(ifaces, (i: SrInterface) => InterfaceElement(i))
  }

  function ComponentElements(comps: seq<Component>): seq<PackageElement> {
    MapSeq(comps, (c: Component) => ComponentElement(c))
  }

  /** The DataTypes package: no ELEMENTS of its own, the application data
      types in one sub-package, the implementation data types followed by
      the interfaces in the other. */
  function DataTypesPackage(adt: seq<AdtNode>, idt: seq<IdtNode>, ifaces: seq<SrInterface>): ArPackage {
    ArPackage("DataTypes", None, [
      ArPackage("ApplicationDataTypes", Some(AdtElements(adt)), []),
      ArPackage("ImplementationDataTypes", Some(IdtElements(idt) + InterfaceElements(ifaces)), [])])
  }

  function ComponentsPackage(comps: seq<Component>): ArPackage {
    ArPackage("Components", Some(ComponentElements(comps)), [])
  }

  /** What the passes of `generate` produce: the application-data-type
      walk, the implementation-data-type walk, the interfaces and the
      components. */
  datatype Passes = Passes(adt: Run<AdtNode>, idt: Run<IdtNode>, ifaces: seq<SrInterface>, comps: seq<Component>)

  function PassesOf(types: Catalog, apis: seq<ApiEntry>): Passes
    requires StructsHaveFields(types)
  {
    var names := NeededTypes(apis);
    Passes(AdtPass(types, names), IdtPass(types, names), Interfaces(types, apis), Components(apis))
  }

  /** The document the passes make: the cycle error of the first pass stops
      the run; otherwise DataTypes, then Components when there is a
      component. */
  function DocumentOf(p: Passes): (r: Result<seq<ArPackage>, GenError>)
    ensures r.Success? ==> 1 <= |r.value| <= 2 && r.value[0].name == "DataTypes"
    ensures r.Success? && |r.value| == 2 ==> r.value[1].name == "Components"
  {
    match p.adt.outcome
    case CycleError(name, path) => Failure(CyclicType(name, path))
    case _ =>
      var data := DataTypesPackage(p.adt.nodes, p.idt.nodes, p.ifaces);
      Success(if |p.comps| == 0 then [data] else [data, ComponentsPackage(p.comps)])
  }

  /** The document `generate` writes for a catalog and the API entries, or
      the reason it stops. */
  function GenerateDoc(types: Catalog, apis: seq<ApiEntry>): (r: Result<seq<ArPackage>, GenError>)
    requires StructsHaveFields(types)
  {
    DocumentOf(PassesOf(types, apis))
  }

  /** Package elements that are application data types named, in order,
      after the given names. */
  ghost predicate AdtsNamed(els: seq<PackageElement>, names: seq<string>) {
    |els| == |names| && forall j :: 0 <= j < |names| ==> els[j].AdtElement? && els[j].adt.name == names[j]
  }

  /** Package elements that start with implementation data types named, in
      order, after the given names and go on with the given interfaces. */
  ghost predicate IdtsThenInterfaces(els: seq<PackageElement>, names: seq<string>, ifaces: seq<SrInterface>) {
    && |els| == |names| + |ifaces|
    && (forall j :: 0 <= j < |names| ==> els[j].IdtElement? && els[j].idt.name == names[j])
    && (forall j :: 0 <= j < |ifaces| ==> els[|names| + j] == InterfaceElement(ifaces[j]))
  }

  /** The layout of a DataTypes package whose types are the given names. */
  ghost predicate DataTypesLayout(d: ArPackage, names: seq<string>, ifaces: seq<SrInterface>) {
    && d.name == "DataTypes" && d.elements.None? && |d.subPackages| == 2
    && d.subPackages[0].name == "ApplicationDataTypes" && d.subPackages[0].elements.Some?
    && d.subPackages[1].name == "ImplementationDataTypes" && d.subPackages[1].elements.Some?
    && AdtsNamed(d.subPackages[0].elements.value, names)
    && IdtsThenInterfaces(d.subPackages[1].elements.value, names, ifaces)
  }

  /** Nodes of both passes named, in order, after the same names. */
  ghost predicate NodesNamed(adt: seq<AdtNode>, idt: seq<IdtNode>, names: seq<string>) {
    && |adt| == |names| && |idt| == |names|
    && forall j :: 0 <= j < |names| ==> adt[j].name == names[j] && idt[j].name == names[j]
  }

  lemma DataTypesPackageLayout(adt: seq<AdtNode>, idt: seq<IdtNode>, ifaces: seq<SrInterface>, names: seq<string>)
    requires NodesNamed(adt, idt, names)
    ensures DataTypesLayout(DataTypesPackage(adt, idt, ifaces), names, ifaces)
  {
    var els := IdtElements(idt) + InterfaceElements(ifaces);
    forall j | 0 <= j < |ifaces| ensures els[|names| + j] == InterfaceElement(ifaces[j]) {
    }
  }

  /** Where the ADT pass succeeds, both passes emit the same names in the
      same order, no name twice, and name their nodes after them. */
  lemma PassesAligned(types: Catalog, names: seq<string>)
    requires StructsHaveFields(types)
    requires AdtPass(types, names).outcome.Done?
    ensures NoDuplicates(AdtPass(types, names).emitted)
    ensures NodesNamed(AdtPass(types, names).nodes, IdtPass(types, names).nodes, AdtPass(types, names).emitted)
  {
    AdtPassEmitsOnce(types, names);
    IdtPassEmitsOnce(types, names);
    IdtPassMirrorsAdtPass(types, names);
  }

  /** The layout of a Components package holding components named, in
      order, after the given SWC names. */
  ghost predicate ComponentsLayout(c: ArPackage, swcs: seq<string>) {
    && c.name == "Components" && c.elements.Some? && |c.elements.value| == |swcs|
    && forall j :: 0 <= j < |swcs| ==>
         c.elements.value[j].ComponentElement? && c.elements.value[j].component.name == swcs[j]
  }

  lemma ComponentsPackageLayout(comps: seq<Component>, swcs: seq<string>)
    requires |comps| == |swcs| && forall j :: 0 <= j < |swcs| ==> comps[j].name == swcs[j]
    ensures ComponentsLayout(ComponentsPackage(comps), swcs)
  {
  }

  /** There is a component exactly when there is an API entry. */
  lemma ComponentsExist(apis: seq<ApiEntry>)
    ensures |Components(apis)| > 0 <==> |apis| > 0
  {
    ComponentsOnePerSwc(apis);
    if |apis| > 0 {
      assert MapSeq(apis, SwcOf)[0] in Distinct(MapSeq(apis, SwcOf));
    }
  }

  /** `generate` fails exactly when the application-data-type pass meets a
      cycle, and then reports that cycle's name and path. */
  lemma GenerateFailsOnlyOnCycles(types: Catalog, apis: seq<ApiEntry>)
    requires StructsHaveFields(types)
    ensures var adt := AdtPass(types, NeededTypes(apis));
      && (GenerateDoc(types, apis).Success? <==> adt.outcome.Done?)
      && (GenerateDoc(types, apis).Failure? ==>
            adt.outcome.CycleError? &&
            GenerateDoc(types, apis).error == CyclicType(adt.outcome.name, adt.outcome.path))
  {
    ResolveAllOnlyCycles(AdtPlans(types), NeededTypes(apis), 0, {});
  }

  /** On an acyclic catalog `generate` always writes a document. */
  lemma AcyclicCatalogGenerates(types: Catalog, rank: map<string, nat>, apis: seq<ApiEntry>)
    requires StructsHaveFields(types) && TypeModel.Ranked(types, rank)
    ensures GenerateDoc(types, apis).Success?
  {
    AcyclicCatalogPasses(types, rank, NeededTypes(apis));
    GenerateFailsOnlyOnCycles(types, apis);
  }

  /** The DataTypes package of a written document: the application and
      the implementation sub-packages hold one type per name the first pass
      emitted, in the same order and no name twice; the interfaces follow
      the implementation data types. */
  lemma GeneratedDataTypes(types: Catalog, apis: seq<ApiEntry>)
    requires StructsHaveFields(types)
    requires GenerateDoc(types, apis).Success?
    ensures NoDuplicates(AdtPass(types, NeededTypes(apis)).emitted)
    ensures DataTypesLayout(GenerateDoc(types, apis).value[0],
      AdtPass(types, NeededTypes(apis)).emitted, Interfaces(types, apis))
  {
    var names := NeededTypes(apis);
    GenerateFailsOnlyOnCycles(types, apis);
    PassesAligned(types, names);
    DataTypesPackageLayout(AdtPass(types, names).nodes, IdtPass(types, names).nodes,
      Interfaces(types, apis), AdtPass(types, names).emitted);
  }

  /** A written document has a Components package exactly when there are
      API entries, holding one component per distinct SWC name, in order of
      first occurrence. */
  lemma GeneratedComponents(types: Catalog, apis: seq<ApiEntry>)
    requires StructsHaveFields(types)
    requires GenerateDoc(types, apis).Success?
    ensures |GenerateDoc(types, apis).value| == 2 <==> |apis| > 0
    ensures |apis| > 0 ==>
      ComponentsLayout(GenerateDoc(types, apis).value[1], Distinct(MapSeq(apis, SwcOf)))
  {
    ComponentsExist(apis);
    ComponentsOnePerSwc(apis);
    ComponentsPackageLayout(Components(apis), Distinct(MapSeq(apis, SwcOf)));
  }

  /** One entry needs exactly its own type. */
  lemma NeededOne(e: ApiEntry)
    ensures NeededTypes([e]) == [e.typeRef]
  {
    assert MapSeq([e], TypeRefOf) == [e.typeRef];
    DistinctSnoc([], e.typeRef);
    assert [] + [e.typeRef] == [e.typeRef];
  }

  /** Needing a type of the mutually recursive structs A and B stops
      `generate` with the cycle error on A over the path {A, B}. */
  lemma CyclicCatalogFails(types: Catalog, e: ApiEntry)
    requires HasCyclicTypes(types) && StructsHaveFields(types) && e.typeRef == "A"
    ensures GenerateDoc(types, [e]) == Failure(CyclicType("A", {"A", "B"}))
  {
    NeededOne(e);
    CyclicTypesFail(types);
    var p := PassesOf(types, [e]);
    assert p.adt == AdtPass(types, ["A"]);
    assert p.adt.outcome == CycleError("A", {"A", "B"});
    assert DocumentOf(p) == Failure(CyclicType("A", {"A", "B"}));
  }

  // ---------------------------------------------------------------------------
  // The run

  /** Appends es to the ELEMENTS of sub-package c of package p. */
  function AppendToSubpackage(pkgs: seq<ArPackage>, p: nat, c: nat, es: seq<PackageElement>): (r: seq<ArPackage>)
    requires p < |pkgs| && c < |pkgs[p].subPackages| && pkgs[p].subPackages[c].elements.Some?
    ensures |r| == |pkgs| && r[p].name == pkgs[p].name && r[p].elements == pkgs[p].elements
    ensures |r[p].subPackages| == |pkgs[p].subPackages|
    ensures r[p].subPackages[c].elements == Some(pkgs[p].subPackages[c].elements.value + es)
    ensures r[p].subPackages[c].name == pkgs[p].subPackages[c].name
    ensures forall k :: 0 <= k < |pkgs[p].subPackages| && k != c ==> r[p].subPackages[k] == pkgs[p].subPackages[k]
  {
    var parent := pkgs[p];
    var child := parent.subPackages[c];
    pkgs[p := parent.(subPackages := parent.subPackages[c := child.(elements := Some(child.elements.value + es))])]
  }

  /** The first `_ensure_subpackage` call on the empty AR-PACKAGES creates
      the DataTypes package without ELEMENTS and, inside it,
      ApplicationDataTypes with an empty ELEMENTS list. */
  lemma EnsureApplicationDataTypes()
    ensures EnsureSubpackage([], "DataTypes", "ApplicationDataTypes") ==
      ([ArPackage("DataTypes", None, [ArPackage("ApplicationDataTypes", Some([]), [])])], 0, 0)
  {
    var adt := ArPackage("ApplicationDataTypes", Some([]), []);
    assert FindPackage([], "DataTypes") == None;
    assert [] + [ArPackage("DataTypes", None, [])] == [ArPackage("DataTypes", None, [])];
    assert FindPackage([], "ApplicationDataTypes") == None;
    assert [] + [adt] == [adt];
    assert EnsurePackage([], "ApplicationDataTypes") == ([adt], 0);
    assert [ArPackage("DataTypes", None, [])][0 := ArPackage("DataTypes", None, [ArPackage("ApplicationDataTypes", Some([]), [])])]
      == [ArPackage("DataTypes", None, [ArPackage("ApplicationDataTypes", Some([]), [])])];
  }

  /** The second call finds DataTypes and adds ImplementationDataTypes after
      ApplicationDataTypes. */
  lemma EnsureImplementationDataTypes()
    ensures EnsureSubpackage([ArPackage("DataTypes", None, [ArPackage("ApplicationDataTypes", Some([]), [])])],
        "DataTypes", "ImplementationDataTypes") ==
      ([ArPackage("DataTypes", None, [ArPackage("ApplicationDataTypes", Some([]), []),
                                     ArPackage("ImplementationDataTypes", Some([]), [])])], 0, 1)
  {
    var adt := ArPackage("ApplicationDataTypes", Some([]), []);
    var data := ArPackage("DataTypes", None, [adt]);
    assert FindPackage([data], "DataTypes") == Some(0);
    assert adt.name != "ImplementationDataTypes" by {
      assert |adt.name| != |"ImplementationDataTypes"|;
    }
    assert [adt][1..] == [];
    assert FindPackage([adt], "ImplementationDataTypes") == None;
    assert [adt] + [ArPackage("ImplementationDataTypes", Some([]), [])] == [adt, ArPackage("ImplementationDataTypes", Some([]), [])];
    assert [data][0 := data.(subPackages := [adt, ArPackage("ImplementationDataTypes", Some([]), [])])] ==
      [ArPackage("DataTypes", None, [adt, ArPackage("ImplementationDataTypes", Some([]), [])])];
    assert EnsurePackage([adt], "ImplementationDataTypes") == ([adt, ArPackage("ImplementationDataTypes", Some([]), [])], 1);
  }

  /** One more component: `_ensure_package` finds the Components package,
      or creates it after DataTypes, and the component is appended to it. */
  lemma ComponentsLoopStep(data: ArPackage, comps: seq<Component>, j: nat)
    requires data.name == "DataTypes" && j < |comps|
    ensures var pkgs := if j == 0 then [data] else [data, ComponentsPackage(comps[..j])];
      var (withComps, k) := EnsurePackage(pkgs, "Components");
      AppendToPackage(withComps, k, ComponentElement(comps[j])) == [data, ComponentsPackage(comps[..j + 1])]
  {
    assert data.name != "Components" by {
      assert |data.name| != |"Components"|;
    }
    assert comps[..j + 1] == comps[..j] + [comps[j]];
    assert ComponentElements(comps[..j + 1]) == ComponentElements(comps[..j]) + [ComponentElement(comps[j])];
    if j > 0 {
      FindPackageUnique([data, ComponentsPackage(comps[..j])], "Components", 1);
    }
  }

  /** Appending to the sub-packages of a lone package rebuilds it with the
      longer ELEMENTS list in place. */
  lemma AppendToSubpackageOfOne(name: string, subs: seq<ArPackage>, c: nat, es: seq<PackageElement>)
    requires c < |subs| && subs[c].elements.Some?
    ensures AppendToSubpackage([ArPackage(name, None, subs)], 0, c, es) ==
      [ArPackage(name, None, subs[c := subs[c].(elements := Some(subs[c].elements.value + es))])]
  {
  }

  /** The three appends fill the empty DataTypes package. */
  lemma DataTypesFilled(adtNodes: seq<AdtNode>, idtNodes: seq<IdtNode>, ifaces: seq<SrInterface>)
    ensures var empty := [ArPackage("DataTypes", None, [ArPackage("ApplicationDataTypes", Some([]), []),
                                                        ArPackage("ImplementationDataTypes", Some([]), [])])];
      var withAdt := AppendToSubpackage(empty, 0, 0, AdtElements(adtNodes));
      var withIdt := AppendToSubpackage(withAdt, 0, 1, IdtElements(idtNodes));
      AppendToSubpackage(withIdt, 0, 1, InterfaceElements(ifaces)) == [DataTypesPackage(adtNodes, idtNodes, ifaces)]
  {
    var adt0 := ArPackage("ApplicationDataTypes", Some([]), []);
    var idt0 := ArPackage("ImplementationDataTypes", Some([]), []);
    var adt1 := adt0.(elements := Some(AdtElements(adtNodes)));
    var idt1 := idt0.(elements := Some(IdtElements(idtNodes)));
    var idt2 := idt0.(elements := Some(IdtElements(idtNodes) + InterfaceElements(ifaces)));
    assert [] + AdtElements(adtNodes) == AdtElements(adtNodes);
    assert [] + IdtElements(idtNodes) == IdtElements(idtNodes);
    AppendToSubpackageOfOne("DataTypes", [adt0, idt0], 0, AdtElements(adtNodes));
    assert [adt0, idt0][0 := adt1] == [adt1, idt0];
    AppendToSubpackageOfOne("DataTypes", [adt1, idt0], 1, IdtElements(idtNodes));
    assert [adt1, idt0][1 := idt1] == [adt1, idt1];
    AppendToSubpackageOfOne("DataTypes", [adt1, idt1], 1, InterfaceElements(ifaces));
    assert [adt1, idt1][1 := idt2] == [adt1, idt2];
  }

  /** The DataTypes package: both `_ensure_subpackage` calls on the empty
      AR-PACKAGES, then the nodes of each pass and the interfaces appended
      to their sub-packages. */
  method FillDataTypes(adtNodes: seq<AdtNode>, idtNodes: seq<IdtNode>, ifaces: seq<SrInterface>) returns (pkgs: seq<ArPackage>)
    ensures pkgs == [DataTypesPackage(adtNodes, idtNodes, ifaces)]
  {
    EnsureApplicationDataTypes();
    EnsureImplementationDataTypes();
    var (pkgs0, _, adtPos) := EnsureSubpackage([], "DataTypes", "ApplicationDataTypes");
    var (pkgs1, dataPos, idtPos) := EnsureSubpackage(pkgs0, "DataTypes", "ImplementationDataTypes");
    pkgs := AppendToSubpackage(pkgs1, dataPos, adtPos, AdtElements(adtNodes));
    pkgs := AppendToSubpackage(pkgs, dataPos, idtPos, IdtElements(idtNodes));
    pkgs := AppendToSubpackage(pkgs, dataPos, idtPos, InterfaceElements(ifaces));
    DataTypesFilled(adtNodes, idtNodes, ifaces);
  }

  /** The data-type half of `generate`: the application-data-type pass (a
      cycle stops the run), the implementation-data-type pass and the
      interfaces, placed in the DataTypes package. */
  method CreateDataTypes(types: Catalog, apis: seq<ApiEntry>) returns (outcome: Outcome, pkgs: seq<ArPackage>)
    requires StructsHaveFields(types)
    ensures outcome == AdtPass(types, NeededTypes(apis)).outcome
    ensures !outcome.CycleError? ==> pkgs == [DataTypesPackage(AdtPass(types, NeededTypes(apis)).nodes,
      IdtPass(types, NeededTypes(apis)).nodes, Interfaces(types, apis))]
  {
    var names := NeededTypes(apis);
    var adtNodes;
    outcome, adtNodes := CreateApplicationTypes(types, names);
    if outcome.CycleError? {
      return outcome, [];
    }
    var _, idtNodes := CreateImplementationTypes(types, names);
    var ifaces := CreateInterfaces(types, apis);
    pkgs := FillDataTypes(adtNodes, idtNodes, ifaces);
  }

  /** The SWC loop of `generate`: for each component, `_ensure_package`
      finds or creates Components and the component is appended to it. */
  method AddComponents(pkgs: seq<ArPackage>, comps: seq<Component>) returns (doc: seq<ArPackage>)
    requires |pkgs| == 1 && pkgs[0].name == "DataTypes"
    ensures doc == if |comps| == 0 then pkgs else [pkgs[0], ComponentsPackage(comps)]
  {
    ghost var data := pkgs[0];
    doc := pkgs;
    var j := 0;
    while j < |comps|
      invariant 0 <= j <= |comps|
      invariant doc == if j == 0 then [data] else [data, ComponentsPackage(comps[..j])]
    {
      ComponentsLoopStep(data, comps, j);
      var (withComps, k) := EnsurePackage(doc, "Components");
      doc := AppendToPackage(withComps, k, ComponentElement(comps[j]));
      j := j + 1;
    }
    assert j > 0 ==> comps[..j] == comps;
  }

  /** `generate` over a catalog already read. */
  method Generate(types: Catalog, apis: seq<ApiEntry>) returns (r: Result<seq<ArPackage>, GenError>)
    requires StructsHaveFields(types)
    ensures r == GenerateDoc(types, apis)
  {
    var outcome, pkgs := CreateDataTypes(types, apis);
    if outcome.CycleError? {
      return Failure(CyclicType(outcome.name, outcome.path));
    }
    var comps := CreateComponents(apis);
    var doc := AddComponents(pkgs, comps);
    return Success(doc);
  }

  // ---------------------------------------------------------------------------
  // From the sheets

  /** `generate` from the Types sheet and the APIs sheet: the types are read
      first, then the APIs, and a sheet that cannot be read stops the run
      before anything is built. */
  function GenerateFromSheets(typeHeader: Row, typeRows: seq<Row>, apiHeader: Row, apiRows: seq<Row>): (r: Result<seq<ArPackage>, GenError>)
    ensures ReadTypes(typeHeader, typeRows).Failure? ==>
      r == Failure(ReadFailed(ReadTypes(typeHeader, typeRows).error))
  {
    match ReadTypes(typeHeader, typeRows)
    case Failure(e) => Failure(ReadFailed(e))
    case Success(types) =>
      ReadTypesShape(typeHeader, typeRows);
      match ReadApis(apiHeader, apiRows)
      case Failure(e) => Failure(ReadFailed(e))
      case Success(apis) => GenerateDoc(types, apis)
  }

  /** A run writes a document exactly when both sheets are read and the
      needed types have no cycle; otherwise it names the first reason. */
  lemma GenerateFromSheetsOutcome(typeHeader: Row, typeRows: seq<Row>, apiHeader: Row, apiRows: seq<Row>)
    ensures var types := ReadTypes(typeHeader, typeRows);
      var apis := ReadApis(apiHeader, apiRows);
      var r := GenerateFromSheets(typeHeader, typeRows, apiHeader, apiRows);
      && (r.Success? <==>
            types.Success? && apis.Success? && AdtPass(types.value, NeededTypes(apis.value)).outcome.Done?)
      && (types.Success? && apis.Failure? ==> r == Failure(ReadFailed(apis.error)))
      && (r.Failure? && r.error.CyclicType? ==> types.Success? && apis.Success?)
  {
    var types := ReadTypes(typeHeader, typeRows);
    var apis := ReadApis(apiHeader, apiRows);
    if types.Success? && apis.Success? {
      ReadTypesShape(typeHeader, typeRows);
      GenerateFailsOnlyOnCycles(types.value, apis.value);
    }
  }

  /** `generate`, reading the sheets. */
  method GenerateArxml(typeHeader: Row, typeRows: seq<Row>, apiHeader: Row, apiRows: seq<Row>)
    returns (r: Result<seq<ArPackage>, GenError>)
    ensures r == GenerateFromSheets(typeHeader, typeRows, apiHeader, apiRows)
  {
    var typesOrError := ReadTypeDefinitions(typeHeader, typeRows);
    if typesOrError.Failure? {
      return Failure(ReadFailed(typesOrError.error));
    }
    var apisOrError := ReadApiDefinitions(apiHeader, apiRows);
    if apisOrError.Failure? {
      return Failure(ReadFailed(apisOrError.error));
    }
    ReadTypesShape(typeHeader, typeRows);
    r := Generate(typesOrError.value, apisOrError.value);
  }
}
