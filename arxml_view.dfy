/** The part of an ARXML tree the extractor reads, as plain values. Every
    query the extractor makes with `find`, `findall` or an XPath becomes a
    field holding what that query returns, in document order; a text that
    may be absent is an Option, and "present with text" is Truthy. */
module ArxmlView {
  import opened Wrappers
  import opened Text

  /** The texts of the first TYPE-TREF and of the first
      IMPLEMENTATION-DATA-TYPE-REF below an element (None when there is no
      such element or it has no text). */
  datatype Refs = Refs(typeTref: Option<string>, idtRef: Option<string>)

  /** The ELEMENT of an APPLICATION-ARRAY-DATA-TYPE. */
  datatype ArrayElementView = ArrayElementView(refs: Refs, maxElements: Option<string>)

  /** An APPLICATION-ARRAY-DATA-TYPE: its SHORT-NAME and its ELEMENT child. */
  datatype ArrayView = ArrayView(name: Option<string>, element: Option<ArrayElementView>)

  /** An APPLICATION-RECORD-ELEMENT. */
  datatype MemberView = MemberView(name: Option<string>, refs: Refs)

  /** An APPLICATION-RECORD-DATA-TYPE; `elements` is None when it has no
      ELEMENTS child. */
  datatype RecordView = RecordView(name: Option<string>, elements: Option<seq<MemberView>>)

  /** A VARIABLE-ACCESS: the texts of PORT-PROTOTYPE-REF and
      TARGET-DATA-PROTOTYPE-REF under ACCESSED-VARIABLE/AUTOSAR-VARIABLE-IREF;
      None when that element, or any element on the way to it, is missing. */
  datatype AccessView = AccessView(portRef: Option<string>, targetRef: Option<string>)

  /** A RUNNABLE-ENTITY: its SHORT-NAME and the VARIABLE-ACCESS children of
      all its DATA-RECEIVE-POINT-BY-ARGUMENTS, then of all its
      DATA-SEND-POINT-BY-ARGUMENTS, each in document order. */
  datatype RunnableView = RunnableView(name: Option<string>, receives: seq<AccessView>, sends: seq<AccessView>)

  /** A SENDER-RECEIVER-INTERFACE; `dataElement` holds the references below
      the first VARIABLE-DATA-PROTOTYPE of DATA-ELEMENTS, None when either
      element is missing. */
  datatype InterfaceView = InterfaceView(name: Option<string>, dataElement: Option<Refs>)

  /** One element on the way from a port up to the root: its tag (with the
      namespace prefix lxml puts in front) and its SHORT-NAME child's text. */
  datatype Ancestor = Ancestor(tag: string, name: Option<string>)

  /** A P-PORT-PROTOTYPE or R-PORT-PROTOTYPE: its SHORT-NAME, the text of the
      first DATA-ELEMENT-REF in its PROVIDED-COM-SPECS (for a P-port) or
      REQUIRED-COM-SPECS (for an R-port), and its ancestors, parent first. */
  datatype PortView = PortView(name: Option<string>, dataElementRef: Option<string>, ancestors: seq<Ancestor>)

  /** Everything the extractor queries, each list in document order;
      `eventNames` are the SHORT-NAMEs of the RUNNABLE-ENTITY,
      DATA-RECEIVE-EVENT and OPERATION-INVOKED-EVENT elements below a
      RUNNABLES element. */
  datatype Document = Document(
    primitives: seq<Option<string>>,
    arrays: seq<ArrayView>,
    records: seq<RecordView>,
    runnables: seq<RunnableView>,
    eventNames: seq<Option<string>>,
    interfaces: seq<InterfaceView>,
    pPorts: seq<PortView>,
    rPorts: seq<PortView>)

  // ---------------------------------------------------------------------------
  // _get_type_reference

  /** The last path segment of the first TYPE-TREF, when it has text;
      failing that, of the first IMPLEMENTATION-DATA-TYPE-REF, when it has
      text; failing both, None. */
  function TypeReference(refs: Refs): (r: Option<string>)
    ensures r.Some? <==> Truthy(refs.typeTref) || Truthy(refs.idtRef)
  {
    if Truthy(refs.typeTref) then Some(LastSegment(refs.typeTref.value))
    else if Truthy(refs.idtRef) then Some(LastSegment(refs.idtRef.value))
    else None
  }

  /** The reference read holds no '/' and is a suffix of the text it was
      read from: of the TYPE-TREF when that has text, else of the
      IMPLEMENTATION-DATA-TYPE-REF. */
  lemma TypeReferenceIsSuffix(refs: Refs)
    ensures TypeReference(refs).Some? ==> '/' !in TypeReference(refs).value
    ensures Truthy(refs.typeTref) ==> EndsWith(refs.typeTref.value, TypeReference(refs).value)
    ensures !Truthy(refs.typeTref) && Truthy(refs.idtRef) ==> EndsWith(refs.idtRef.value, TypeReference(refs).value)
  {
    if Truthy(refs.typeTref) {
      LastSegmentIsSuffix(refs.typeTref.value);
    } else if Truthy(refs.idtRef) {
      LastSegmentIsSuffix(refs.idtRef.value);
    }
  }

  /** A TYPE-TREF written as a package path followed by a name reads back as
      that name, whatever the implementation reference says. */
  lemma TypeReferenceOfPath(package: string, x: string, idtRef: Option<string>)
    requires x != "" && '/' !in x
    ensures TypeReference(Refs(Some(package + "/" + x), idtRef)) == Some(x)
  {
    LastSegmentOfPath(package, x);
  }

  /** Without a TYPE-TREF text, an IMPLEMENTATION-DATA-TYPE-REF path followed
      by a name reads back as that name. */
  lemma TypeReferenceFallsBack(typeTref: Option<string>, package: string, x: string)
    requires !Truthy(typeTref)
    requires x != "" && '/' !in x
    ensures TypeReference(Refs(typeTref, Some(package + "/" + x))) == Some(x)
  {
    LastSegmentOfPath(package, x);
  }

  /** A TYPE-TREF text ending in '/' names nothing, so the reference is lost
      even though the element has text. */
  lemma TrailingSlashLosesReference(package: string)
    ensures TypeReference(Refs(Some(package + "/"), None)) == Some("")
  {
    var s := package + "/";
    assert s[|s| - 1] == '/';
  }

  // ---------------------------------------------------------------------------
  // _get_swc_name_for_port

  const ComponentTag := "APPLICATION-SW-COMPONENT-TYPE"

  predicate IsComponent(a: Ancestor) {
    EndsWith(a.tag, ComponentTag)
  }

  /** The SHORT-NAME of the nearest ancestor that is a component; None when
      no ancestor is one, or when the nearest one has no SHORT-NAME. */
  function NearestComponentName(ancestors: seq<Ancestor>): Option<string> {
    if |ancestors| == 0 then None
    else if IsComponent(ancestors[0]) then ancestors[0].name
    else NearestComponentName(ancestors[1..])
  }

  /** The ancestor at position i is a component and none nearer is: its
      SHORT-NAME is the answer. */
  lemma {:induction false} NearestComponentAt(ancestors: seq<Ancestor>, i: nat)
    requires i < |ancestors| && IsComponent(ancestors[i])
    requires forall j :: 0 <= j < i ==> !IsComponent(ancestors[j])
    ensures NearestComponentName(ancestors) == ancestors[i].name
  {
    if i > 0 {
      NearestComponentAt(ancestors[1..], i - 1);
    }
  }

  /** No ancestor is a component: there is no name. */
  lemma {:induction false} NoComponentNoName(ancestors: seq<Ancestor>)
    requires forall j :: 0 <= j < |ancestors| ==> !IsComponent(ancestors[j])
    ensures NearestComponentName(ancestors) == None
  {
    if |ancestors| > 0 {
      NoComponentNoName(ancestors[1..]);
    }
  }

  /** The walk up the parents: the first component met decides. */
  method SwcNameForPort(port: PortView) returns (r: Option<string>)
    ensures r == NearestComponentName(port.ancestors)
  {
    var i := 0;
    while i < |port.ancestors|
      invariant 0 <= i <= |port.ancestors|
      invariant NearestComponentName(port.ancestors) == NearestComponentName(port.ancestors[i..])
    {
      if IsComponent(port.ancestors[i]) {
        return port.ancestors[i].name;
      }
      assert port.ancestors[i..][1..] == port.ancestors[i + 1..];
      i := i + 1;
    }
    return None;
  }
}
