/** The ARXML document as the generator builds it, with only the nodes and
    texts the converters read or write: data types, sender-receiver
    interfaces, components with their ports, runnables and task events, and
    the AR-PACKAGE tree that holds them. UUIDs and fixed boilerplate are not
    represented. */
module Arxml {
  import opened Wrappers
  import opened Text
  import opened TypeModel

  const ApplicationTypesPath := "/DataTypes/ApplicationDataTypes/"
  const ImplementationTypesPath := "/DataTypes/ImplementationDataTypes/"

  /** The DEST attribute of a TYPE-TREF. */
  datatype TypeDest = PrimitiveDest | ArrayDest | RecordDest

  /** The DEST a reference to type t carries: array, record, or primitive for
      anything else (including names the catalog does not define). */
  function DestOf(types: Catalog, t: string): (r: TypeDest)
    ensures r == ArrayDest <==> IsArrayType(types, t)
    ensures r == RecordDest <==> IsStructType(types, t)
  {
    if IsArrayType(types, t) then ArrayDest
    else if IsStructType(types, t) then RecordDest
    else PrimitiveDest
  }

  // ---------------------------------------------------------------------------
  // Application data types

  /** An APPLICATION-RECORD-ELEMENT: SHORT-NAME and TYPE-TREF. */
  datatype RecordElement = RecordElement(name: string, typeTref: string, dest: TypeDest)

  datatype AdtNode =
    | AppPrimitive(name: string)
      // APPLICATION-ARRAY-DATA-TYPE; its ELEMENT repeats the array's name and
      // its TYPE-TREF always says DEST primitive
    | AppArray(name: string, elementName: string, elementTref: string, elementDest: TypeDest, maxElements: nat)
    | AppRecord(name: string, elements: seq<RecordElement>)

  function AppArrayNode(name: string, base: string, size: nat): (r: AdtNode)
    ensures r.name == name && r.AppArray? && r.elementTref == ApplicationTypesPath + base
  {
    AppArray(name, name, ApplicationTypesPath + base, PrimitiveDest, size)
  }

  /** `_create_application_record_type` over (field name, field type) pairs. */
  function AppRecordNode(types: Catalog, name: string, fields: seq<(string, string)>): AdtNode {
    AppRecord(name, RecordElements(types, fields))
  }

  /** One APPLICATION-RECORD-ELEMENT per pair, in order, each referring to
      its field type by path. */
  function RecordElements(types: Catalog, fields: seq<(string, string)>): (r: seq<RecordElement>)
    ensures |r| == |fields|
    ensures forall i :: 0 <= i < |fields| ==>
      r[i] == RecordElement(fields[i].0, ApplicationTypesPath + fields[i].1, DestOf(types, fields[i].1))
  {
    if |fields| == 0 then []
    else
      var last := fields[|fields| - 1];
      RecordElements(types, fields[..|fields| - 1]) + [RecordElement(last.0, ApplicationTypesPath + last.1, DestOf(types, last.1))]
  }

  // ---------------------------------------------------------------------------
  // Implementation data types

  /** An IMPLEMENTATION-DATA-TYPE-ELEMENT of a structure: SHORT-NAME and the
      IMPLEMENTATION-DATA-TYPE-REF text. */
  datatype ImplElement = ImplElement(name: string, typeRef: string)

  datatype IdtNode =
      // CATEGORY is the canonical primitive name, absent for an unknown spelling
    | ImplValue(name: string, category: Option<string>)
      // CATEGORY TYPE_REFERENCE with one sub-element "Element" of ARRAY-SIZE size
    | ImplArray(name: string, size: nat, elementRef: string)
    | ImplStruct(name: string, subElements: seq<ImplElement>)

  /** The value IDT of a primitive, its category taken from the spelling table. */
  function ImplValueNode(name: string): (r: IdtNode)
    ensures r.ImplValue? && r.name == name
    ensures IsBasicType(name) ==> r.category == Some(BasicTypes[name])
  {
    ImplValue(name, if name in BasicTypes then Some(BasicTypes[name]) else None)
  }

  function ImplArrayNode(name: string, base: string, size: nat): IdtNode {
    ImplArray(name, size, ImplementationTypesPath + base)
  }

  /** The structure IDT: one sub-element per (field name,
      field type) pair, with the texts as stored. */
  function ImplStructNode(name: string, defs: seq<Entry>): (r: IdtNode)
    requires forall i :: 0 <= i < |defs| ==> defs[i].Field?
    ensures r.ImplStruct? && r.name == name && |r.subElements| == |defs|
    ensures forall i :: 0 <= i < |defs| ==>
      r.subElements[i] == ImplElement(defs[i].fieldName, ImplementationTypesPath + defs[i].fieldType)
  {
    ImplStruct(name, ImplElements(defs))
  }

  function ImplElements(defs: seq<Entry>): (r: seq<ImplElement>)
    requires forall i :: 0 <= i < |defs| ==> defs[i].Field?
    ensures |r| == |defs|
    ensures forall i :: 0 <= i < |defs| ==> r[i] == ImplElement(defs[i].fieldName, ImplementationTypesPath + defs[i].fieldType)
  {
    if |defs| == 0 then []
    else
      var last := defs[|defs| - 1];
      ImplElements(defs[..|defs| - 1]) + [ImplElement(last.fieldName, ImplementationTypesPath + last.fieldType)]
  }

  // ---------------------------------------------------------------------------
  // Interfaces

  datatype InitValue =
    | NoInitValue
    | EmptyInitValue                                 // a default for an array or struct type
    | NumericalInitValue(shortLabel: string, value: string)

  /** A SENDER-RECEIVER-INTERFACE whose single VARIABLE-DATA-PROTOTYPE has
      the interface's own name. */
  datatype SrInterface = SrInterface(name: string, dataElementName: string, typeTref: string, dest: TypeDest, init: InitValue)

  /** `_create_interface_adt` */
  function InterfaceNode(types: Catalog, apiName: string, typeName: string, default: Option<string>): (r: SrInterface)
    ensures r.name == apiName && r.dataElementName == apiName
    ensures r.typeTref == ApplicationTypesPath + typeName && r.dest == DestOf(types, typeName)
    ensures r.init.NoInitValue? <==> default.None?
    ensures r.init.NumericalInitValue? <==>
      default.Some? && !IsArrayType(types, typeName) && !IsStructType(types, typeName)
    ensures r.init.NumericalInitValue? ==> r.init == NumericalInitValue(apiName + "_Init", default.value)
  {
    var init :=
      if default.None? then NoInitValue
      else if IsArrayType(types, typeName) || IsStructType(types, typeName) then EmptyInitValue
      else NumericalInitValue(apiName + "_Init", default.value);
    SrInterface(apiName, apiName, ApplicationTypesPath + typeName, DestOf(types, typeName), init)
  }

  // ---------------------------------------------------------------------------
  // Ports, runnables, components

  datatype PortKind = RPort | PPort

  /** An R- or P-PORT-PROTOTYPE with the DATA-ELEMENT-REF of its com-spec. */
  datatype PortPrototype = PortPrototype(kind: PortKind, name: string, dataElementRef: string)

  function InterfaceRef(iface: string): string {
    "/Interfaces/" + iface + "/" + iface
  }

  /** `_create_port`: an R-port for direction "R", a P-port for anything else. */
  function PortNode(name: string, iface: string, direction: string): (r: PortPrototype)
    ensures r.kind == RPort <==> direction == "R"
    ensures r.name == name && r.dataElementRef == InterfaceRef(iface)
  {
    PortPrototype(if direction == "R" then RPort else PPort, name, InterfaceRef(iface))
  }

  /** A VARIABLE-ACCESS: SHORT-NAME, PORT-PROTOTYPE-REF (with its DEST) and
      TARGET-DATA-PROTOTYPE-REF. */
  datatype VariableAccess = VariableAccess(shortName: string, portRef: string, portDest: PortKind, targetRef: string)

  /** One DATA-RECEIVE-POINT-BY-ARGUMENTS or DATA-SEND-POINT-BY-ARGUMENTS of
      a runnable, each holding one variable access. */
  datatype AccessPoint = ReceivePoint(access: VariableAccess) | SendPoint(access: VariableAccess)

  datatype Runnable = Runnable(name: string, points: seq<AccessPoint>)

  /** The component part of a task name: the text before the first '_',
      which is all of task when it has none. */
  function TaskComponent(task: string): (r: string)
    ensures '_' !in r
    ensures '_' !in task ==> r == task
    ensures '_' in task ==> |r| < |task| && task[..|r|] == r && task[|r|] == '_'
  {
    match IndexOf(task, '_')
    case None => task
    case Some(k) => task[..k]
  }

  /** The access point for one (port, direction, interface) of a task; only
      directions "R" and "S" have one. */
  function AccessPointOf(task: string, port: string, direction: string, iface: string): Option<AccessPoint> {
    var portRef := "/Components/" + TaskComponent(task) + "/" + port;
    if direction == "R" then Some(ReceivePoint(VariableAccess("IN_" + port + "_" + iface, portRef, RPort, InterfaceRef(iface))))
    else if direction == "S" then Some(SendPoint(VariableAccess("OUT_" + port + "_" + iface, portRef, PPort, InterfaceRef(iface))))
    else None
  }

  /** `_create_runnable_with_port_access` over (port, direction, interface) triples. */
  function RunnableNode(name: string, task: string, accesses: seq<(string, string, string)>): Runnable {
    Runnable(name, AccessPoints(task, accesses))
  }

  function AccessPoints(task: string, accesses: seq<(string, string, string)>): seq<AccessPoint> {
    if |accesses| == 0 then []
    else
      var a := accesses[|accesses| - 1];
      var prefix := AccessPoints(task, accesses[..|accesses| - 1]);
      match AccessPointOf(task, a.0, a.1, a.2)
      case Some(p) => prefix + [p]
      case None => prefix
  }

  /** A TASK-EVENT entry: RUNNABLE-ENTITY-REF text and TASK-NAME. */
  datatype TaskEvent = TaskEvent(runnableRef: string, taskName: string)

  function TaskEventRef(swc: string, runnable: string): string {
    "/Components/" + swc + "/" + swc + "_InternalBehavior/" + runnable
  }

  /** An APPLICATION-SW-COMPONENT-TYPE with its single SWC-INTERNAL-BEHAVIOR. */
  datatype Component = Component(
    name: string, ports: seq<PortPrototype>, behaviorName: string,
    runnables: seq<Runnable>, taskEvents: seq<TaskEvent>)

  // ---------------------------------------------------------------------------
  // Packages

  datatype PackageElement =
    | AdtElement(adt: AdtNode)
    | IdtElement(idt: IdtNode)
    | InterfaceElement(iface: SrInterface)
    | ComponentElement(component: Component)

  /** An AR-PACKAGE: SHORT-NAME, an optional ELEMENTS list and sub-packages. */
  datatype ArPackage = ArPackage(name: string, elements: Option<seq<PackageElement>>, subPackages: seq<ArPackage>)

  /** The first package in pkgs with the given SHORT-NAME. */
  function FindPackage(pkgs: seq<ArPackage>, name: string): (r: Option<nat>)
    ensures r.Some? ==> r.value < |pkgs| && pkgs[r.value].name == name
    ensures r.Some? ==> forall i :: 0 <= i < r.value ==> pkgs[i].name != name
    ensures r.None? ==> forall i :: 0 <= i < |pkgs| ==> pkgs[i].name != name
  {
    if |pkgs| == 0 then None
    else if pkgs[0].name == name then Some(0)
    else
      match FindPackage(pkgs[1..], name)
      case None => None
      case Some(k) => Some(k + 1)
  }

  /** A package with an ELEMENTS list, creating an empty one if it has none. */
  function WithElements(p: ArPackage): (r: ArPackage)
    ensures r.name == p.name && r.subPackages == p.subPackages && r.elements.Some?
    ensures p.elements.Some? ==> r == p
  {
    if p.elements.Some? then p else p.(elements := Some([]))
  }

  /** `_ensure_package`: the first package named name, given an ELEMENTS list
      if it lacks one, or a new package appended at the end. Returns the
      package list and the position of that package. */
  function EnsurePackage(pkgs: seq<ArPackage>, name: string): (r: (seq<ArPackage>, nat))
    ensures r.1 < |r.0| && r.0[r.1].name == name && r.0[r.1].elements.Some?
    ensures |r.0| == |pkgs| || (|r.0| == |pkgs| + 1 && r.1 == |pkgs|)
    ensures r.1 < |pkgs| ==>
      && pkgs[r.1].name == name && (forall i :: 0 <= i < r.1 ==> pkgs[i].name != name)
      && r.0[r.1] == WithElements(pkgs[r.1])
    ensures r.1 == |pkgs| ==>
      && (forall i :: 0 <= i < |pkgs| ==> pkgs[i].name != name)
      && r.0[r.1] == ArPackage(name, Some([]), [])
    ensures forall i :: 0 <= i < |pkgs| && i != r.1 ==> r.0[i] == pkgs[i]
  {
    match FindPackage(pkgs, name)
    case Some(k) => (pkgs[k := WithElements(pkgs[k])], k)
    case None => (pkgs + [ArPackage(name, Some([]), [])], |pkgs|)
  }

  /** `_ensure_subpackage`: the first package named parent (created with no
      ELEMENTS if missing) and, inside it, the first sub-package named child
      (created with ELEMENTS if missing). Returns the package list and the
      positions of the parent and the child. */
  function EnsureSubpackage(pkgs: seq<ArPackage>, parent: string, child: string): (r: (seq<ArPackage>, nat, nat))
    ensures r.1 < |r.0| && r.0[r.1].name == parent
    ensures r.2 < |r.0[r.1].subPackages| && r.0[r.1].subPackages[r.2].name == child
    ensures r.0[r.1].subPackages[r.2].elements.Some?
    ensures |r.0| == |pkgs| || (|r.0| == |pkgs| + 1 && r.1 == |pkgs|)
    ensures r.1 < |pkgs| ==>
      && pkgs[r.1].name == parent && (forall i :: 0 <= i < r.1 ==> pkgs[i].name != parent)
      && r.0[r.1].elements == pkgs[r.1].elements
      && (r.0[r.1].subPackages, r.2) == EnsurePackage(pkgs[r.1].subPackages, child)
    ensures r.1 == |pkgs| ==>
      && (forall i :: 0 <= i < |pkgs| ==> pkgs[i].name != parent)
      && r.0[r.1].elements.None?
      && (r.0[r.1].subPackages, r.2) == EnsurePackage([], child)
    ensures forall i :: 0 <= i < |pkgs| && i != r.1 ==> r.0[i] == pkgs[i]
  {
    var (withParent, p) :=
      match FindPackage(pkgs, parent)
      case Some(k) => (pkgs, k)
      case None => (pkgs + [ArPackage(parent, None, [])], |pkgs|);
    var parentPkg := withParent[p];
    var (subs, c) := EnsurePackage(parentPkg.subPackages, child);
    (withParent[p := parentPkg.(subPackages := subs)], p, c)
  }

  /** Ensuring a package a second time changes nothing and finds the same one. */
  lemma EnsurePackageIdempotent(pkgs: seq<ArPackage>, name: string)
    ensures var (pkgs', k) := EnsurePackage(pkgs, name);
      EnsurePackage(pkgs', name) == (pkgs', k)
  {
    var (pkgs', k) := EnsurePackage(pkgs, name);
    FindPackageUnique(pkgs', name, k);
    assert WithElements(pkgs'[k]) == pkgs'[k];
    assert pkgs'[k := pkgs'[k]] == pkgs';
  }

  /** The first package with a name is the one found. */
  lemma FindPackageUnique(pkgs: seq<ArPackage>, name: string, k: nat)
    requires k < |pkgs| && pkgs[k].name == name
    requires forall i :: 0 <= i < k ==> pkgs[i].name != name
    ensures FindPackage(pkgs, name) == Some(k)
  {
  }

  /** Ensuring a package that exists keeps the list's length and order of
      names; one that does not exist is appended. */
  lemma EnsurePackageNames(pkgs: seq<ArPackage>, name: string)
    ensures var (pkgs', k) := EnsurePackage(pkgs, name);
      && (FindPackage(pkgs, name).Some? ==> |pkgs'| == |pkgs| && k == FindPackage(pkgs, name).value)
      && (FindPackage(pkgs, name).None? ==> |pkgs'| == |pkgs| + 1 && k == |pkgs|)
      && forall i :: 0 <= i < |pkgs| ==> pkgs'[i].name == pkgs[i].name
  {
  }

  /** Ensuring a sub-package a second time changes nothing and finds the same one. */
  lemma EnsureSubpackageIdempotent(pkgs: seq<ArPackage>, parent: string, child: string)
    ensures var (pkgs', p, c) := EnsureSubpackage(pkgs, parent, child);
      EnsureSubpackage(pkgs', parent, child) == (pkgs', p, c)
  {
    var withParent :=
      match FindPackage(pkgs, parent)
      case Some(k) => pkgs
      case None => pkgs + [ArPackage(parent, None, [])];
    var (pkgs', p, c) := EnsureSubpackage(pkgs, parent, child);
    var subs := EnsurePackage(withParent[p].subPackages, child).0;
    assert pkgs' == withParent[p := withParent[p].(subPackages := subs)];
    FindPackageUnique(pkgs', parent, p);
    EnsurePackageIdempotent(withParent[p].subPackages, child);
    assert pkgs'[p] == withParent[p].(subPackages := subs);
    assert pkgs'[p := pkgs'[p].(subPackages := subs)] == pkgs';
  }

  /** Appends e to the ELEMENTS of package k. */
  function AppendToPackage(pkgs: seq<ArPackage>, k: nat, e: PackageElement): (r: seq<ArPackage>)
    requires k < |pkgs| && pkgs[k].elements.Some?
    ensures |r| == |pkgs| && r[k].elements == Some(pkgs[k].elements.value + [e])
    ensures forall i :: 0 <= i < |pkgs| && i != k ==> r[i] == pkgs[i]
  {
    pkgs[k := pkgs[k].(elements := Some(pkgs[k].elements.value + [e]))]
  }

  /** Every element of a package tree, each package's own before its sub-packages'. */
  function AllElements(pkgs: seq<ArPackage>): seq<PackageElement>
    decreases pkgs
  {
    if |pkgs| == 0 then []
    else
      (if pkgs[0].elements.Some? then pkgs[0].elements.value else []) +
      AllElements(pkgs[0].subPackages) + AllElements(pkgs[1..])
  }
}
