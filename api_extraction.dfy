/** The API half of the extractor (`extract_apis` and its helpers): the
    port accesses of every runnable, the events that name tasks, the type
    of every sender-receiver interface, the port mapping keyed by interface
    name, the API records built from ports and then from runnables, and the
    de-duplication by interface name. */
module ApiExtraction {
  import opened Wrappers
  import opened Text
  import opened OrderedMaps
  import opened ArxmlView

  /** The text the extractor writes into an SWC or task cell it has no
      value for. */
  const Placeholder := " "
  const UnknownType := "UnknownType"
  const Receive := "R"
  const Send := "S"

  /** One entry of a runnable's `ports` list. */
  datatype PortAccess = PortAccess(portName: string, interfaceName: string, direction: string)

  // ---------------------------------------------------------------------------
  // _extract_runnable_entities

  /** A VARIABLE-ACCESS yields an entry only when both references are
      there; the entry holds the last path segment of each. */
  function AccessEntry(a: AccessView, direction: string): (r: Option<PortAccess>)
    ensures r.Some? <==> a.portRef.Some? && a.targetRef.Some?
    ensures r.Some? ==> r.value.direction == direction
  {
    if a.portRef.Some? && a.targetRef.Some? then
      Some(PortAccess(LastSegment(a.portRef.value), LastSegment(a.targetRef.value), direction))
    else None
  }

  /** References written as paths read back as the port and the data
      element they end in. */
  lemma AccessEntryOfPaths(portPath: string, port: string, targetPath: string, target: string, direction: string)
    requires '/' !in port && '/' !in target
    ensures AccessEntry(AccessView(Some(portPath + "/" + port), Some(targetPath + "/" + target)), direction)
      == Some(PortAccess(port, target, direction))
  {
    LastSegmentOfPath(portPath, port);
    LastSegmentOfPath(targetPath, target);
  }

  function EntryList(e: Option<PortAccess>): seq<PortAccess> {
    if e.Some? then [e.value] else []
  }

  /** The entries of the accesses, in document order. */
  function AccessEntries(accesses: seq<AccessView>, direction: string): (r: seq<PortAccess>)
    ensures |r| <= |accesses|
    ensures forall x :: x in r ==> x.direction == direction
  {
    if |accesses| == 0 then []
    else
      var n := |accesses| - 1;
      AccessEntries(accesses[..n], direction) + EntryList(AccessEntry(accesses[n], direction))
  }

  /** When every access has both references, each one yields its entry. */
  lemma {:induction false} AccessEntriesAllPresent(accesses: seq<AccessView>, direction: string)
    requires forall i :: 0 <= i < |accesses| ==> accesses[i].portRef.Some? && accesses[i].targetRef.Some?
    ensures |AccessEntries(accesses, direction)| == |accesses|
    ensures forall i :: 0 <= i < |accesses| ==>
      Some(AccessEntries(accesses, direction)[i]) == AccessEntry(accesses[i], direction)
  {
    if |accesses| > 0 {
      var n := |accesses| - 1;
      var pre := AccessEntries(accesses[..n], direction);
      AccessEntriesAllPresent(accesses[..n], direction);
      assert AccessEntries(accesses, direction) == pre + [AccessEntry(accesses[n], direction).value];
      forall i | 0 <= i < n
        ensures Some(AccessEntries(accesses, direction)[i]) == AccessEntry(accesses[i], direction)
      {
        assert accesses[..n][i] == accesses[i];
      }
    }
  }

  /** The receive accesses, then the send accesses. */
  function RunnablePorts(r: RunnableView): seq<PortAccess> {
    AccessEntries(r.receives, Receive) + AccessEntries(r.sends, Send)
  }

  /** `runnable_entities` after the given runnables: every runnable with a
      name is assigned its ports, in document order. */
  function RunnableEntities(runnables: seq<RunnableView>): (m: OMap<string, seq<PortAccess>>)
    ensures Valid(m)
  {
    if |runnables| == 0 then Empty()
    else
      var n := |runnables| - 1;
      var r := runnables[n];
      var m := RunnableEntities(runnables[..n]);
      if Truthy(r.name) then Put(m, r.name.value, RunnablePorts(r)) else m
  }

  /** A later runnable with the same name replaces the ports of the earlier
      one and keeps its position; a new name goes last. */
  lemma RepeatedRunnableResets(runnables: seq<RunnableView>, r: RunnableView)
    requires Truthy(r.name)
    ensures var before := RunnableEntities(runnables);
      var after := RunnableEntities(runnables + [r]);
      && after.values == before.values[r.name.value := RunnablePorts(r)]
      && after.keys == if r.name.value in before.keys then before.keys else before.keys + [r.name.value]
  {
    assert (runnables + [r])[..|runnables|] == runnables;
  }

  /** A runnable without a name is skipped. */
  lemma UnnamedRunnableSkipped(runnables: seq<RunnableView>, r: RunnableView)
    requires !Truthy(r.name)
    ensures RunnableEntities(runnables + [r]) == RunnableEntities(runnables)
  {
    assert (runnables + [r])[..|runnables|] == runnables;
  }

  /** Exactly the non-empty SHORT-NAMEs of the runnables are keys. */
  lemma {:induction false} RunnableEntitiesNames(runnables: seq<RunnableView>, k: string)
    ensures k in RunnableEntities(runnables).values <==>
      k != "" && exists i :: 0 <= i < |runnables| && runnables[i].name == Some(k)
  {
    if |runnables| > 0 {
      var n := |runnables| - 1;
      RunnableEntitiesNames(runnables[..n], k);
      if exists i :: 0 <= i < n && runnables[..n][i].name == Some(k) {
        var i :| 0 <= i < n && runnables[..n][i].name == Some(k);
        assert runnables[i].name == Some(k);
      }
      if exists i :: 0 <= i < |runnables| && runnables[i].name == Some(k) {
        var i :| 0 <= i < |runnables| && runnables[i].name == Some(k);
        if i < n {
          assert runnables[..n][i].name == Some(k);
        }
      }
    }
  }

  lemma AccessEntriesStep(accesses: seq<AccessView>, e: nat, direction: string)
    requires e < |accesses|
    ensures AccessEntries(accesses[..e + 1], direction) ==
      AccessEntries(accesses[..e], direction) + EntryList(AccessEntry(accesses[e], direction))
  {
    assert accesses[..e + 1][..e] == accesses[..e];
  }

  lemma RunnablesContinue(runnables: seq<RunnableView>, i: nat)
    requires i < |runnables|
    ensures var r := runnables[i];
      RunnableEntities(runnables[..i + 1]) ==
        if Truthy(r.name) then Put(RunnableEntities(runnables[..i]), r.name.value, RunnablePorts(r))
        else RunnableEntities(runnables[..i])
  {
    assert runnables[..i + 1][..i] == runnables[..i];
  }

  /** Assigning an empty list and then extending it with the receive and
      send entries assigns the runnable's ports. */
  lemma NamedRunnableStep(base: OMap<string, seq<PortAccess>>, name: string, r: RunnableView)
    requires Valid(base)
    ensures var m := Put(base, name, []);
      Put(m, name, m.values[name] + AccessEntries(r.receives, Receive) + AccessEntries(r.sends, Send))
        == Put(base, name, RunnablePorts(r))
  {
    var m := Put(base, name, []);
    assert m.values[name] == [];
    EmptyConcat(AccessEntries(r.receives, Receive), AccessEntries(r.sends, Send));
    PutTwice(base, name, [], RunnablePorts(r));
  }

  /** One access-point loop: every access with both references yields its
      entry, in document order. */
  method CollectAccesses(accesses: seq<AccessView>, direction: string) returns (entries: seq<PortAccess>)
    ensures entries == AccessEntries(accesses, direction)
  {
    entries := [];
    var e := 0;
    while e < |accesses|
      invariant 0 <= e <= |accesses|
      invariant entries == AccessEntries(accesses[..e], direction)
    {
      var a := accesses[e];
      AccessEntriesStep(accesses, e, direction);
      if a.portRef.Some? && a.targetRef.Some? {
        entries := entries + [PortAccess(LastSegment(a.portRef.value), LastSegment(a.targetRef.value), direction)];
      }
      e := e + 1;
    }
    assert accesses[..e] == accesses;
  }

  /** `_extract_runnable_entities`: each named runnable is assigned an
      empty list, which its receive accesses and then its send accesses
      extend. */
  method ExtractRunnableEntities(runnables: seq<RunnableView>) returns (m: OMap<string, seq<PortAccess>>)
    ensures m == RunnableEntities(runnables)
  {
    m := Empty();
    var i := 0;
    while i < |runnables|
      invariant 0 <= i <= |runnables|
      invariant m == RunnableEntities(runnables[..i])
    {
      var r := runnables[i];
      RunnablesContinue(runnables, i);
      if Truthy(r.name) {
        var name := r.name.value;
        ghost var base := m;
        m := Put(m, name, []);
        var received := CollectAccesses(r.receives, Receive);
        var sent := CollectAccesses(r.sends, Send);
        NamedRunnableStep(base, name, r);
        m := Put(m, name, m.values[name] + received + sent);
      }
      i := i + 1;
    }
    assert runnables[..i] == runnables;
  }

  // ---------------------------------------------------------------------------
  // _extract_events_and_tasks

  /** Every key maps to itself. */
  predicate MapsToItself<K>(m: OMap<K, K>) {
    forall k :: k in m.values ==> m.values[k] == k
  }

  /** Assigning a key to itself keeps every key mapped to itself. */
  lemma PutItself<K>(m: OMap<K, K>, x: K)
    requires Valid(m) && MapsToItself(m)
    ensures MapsToItself(Put(m, x, x))
  {
  }

  /** Every event and runnable SHORT-NAME below RUNNABLES maps to itself,
      keys in order of first occurrence. */
  method ExtractEventsAndTasks(eventNames: seq<Option<string>>) returns (m: OMap<Option<string>, Option<string>>)
    ensures Valid(m)
    ensures m.keys == Distinct(eventNames)
    ensures forall k :: k in m.values ==> m.values[k] == k
  {
    m := Empty();
    var i := 0;
    while i < |eventNames|
      invariant 0 <= i <= |eventNames|
      invariant Valid(m) && m.keys == Distinct(eventNames[..i]) && MapsToItself(m)
    {
      var x := eventNames[i];
      PutDistinct(m, eventNames, i, x);
      PutItself(m, x);
      m := Put(m, x, x);
      i := i + 1;
    }
    assert eventNames[..i] == eventNames;
  }

  /** A runnable's task: its own name when some event or runnable
      below RUNNABLES carries that name, the placeholder otherwise. */
  function TaskFor(eventNames: seq<Option<string>>, runnableName: string): string {
    if Some(runnableName) in eventNames then runnableName else Placeholder
  }

  // ---------------------------------------------------------------------------
  // interface_types

  /** An interface with a name and a type reference, both non-empty. */
  function InterfaceEntry(iface: InterfaceView): Option<(string, string)> {
    if iface.dataElement.None? then None
    else
      var t := TypeReference(iface.dataElement.value);
      if Truthy(iface.name) && Truthy(t) then Some((iface.name.value, t.value)) else None
  }

  /** `interface_types` after the given interfaces. */
  function InterfaceTypes(ifaces: seq<InterfaceView>): (m: OMap<string, string>)
    ensures Valid(m)
  {
    if |ifaces| == 0 then Empty()
    else
      var n := |ifaces| - 1;
      var m := InterfaceTypes(ifaces[..n]);
      var e := InterfaceEntry(ifaces[n]);
      if e.Some? then Put(m, e.value.0, e.value.1) else m
  }

  /** An interface whose data element's TYPE-TREF is a path ending in x
      has type x, whatever interfaces came before it. */
  lemma InterfaceTypeOfPath(ifaces: seq<InterfaceView>, name: string, package: string, x: string, idtRef: Option<string>)
    requires name != "" && x != "" && '/' !in x
    ensures var m := InterfaceTypes(ifaces + [InterfaceView(Some(name), Some(Refs(Some(package + "/" + x), idtRef)))]);
      name in m.values && m.values[name] == x
  {
    var iface := InterfaceView(Some(name), Some(Refs(Some(package + "/" + x), idtRef)));
    TypeReferenceOfPath(package, x, idtRef);
    assert (ifaces + [iface])[..|ifaces|] == ifaces;
  }

  /** An interface without a usable type reference records nothing. */
  lemma UntypedInterfaceSkipped(ifaces: seq<InterfaceView>, iface: InterfaceView)
    requires iface.dataElement.None? || !Truthy(TypeReference(iface.dataElement.value))
    ensures InterfaceTypes(ifaces + [iface]) == InterfaceTypes(ifaces)
  {
    assert (ifaces + [iface])[..|ifaces|] == ifaces;
  }

  method ExtractInterfaceTypes(ifaces: seq<InterfaceView>) returns (m: OMap<string, string>)
    ensures m == InterfaceTypes(ifaces)
  {
    m := Empty();
    var i := 0;
    while i < |ifaces|
      invariant 0 <= i <= |ifaces|
      invariant m == InterfaceTypes(ifaces[..i])
    {
      var iface := ifaces[i];
      assert ifaces[..i + 1][..i] == ifaces[..i];
      if iface.dataElement.Some? {
        var typeRef := TypeReference(iface.dataElement.value);
        if Truthy(iface.name) && Truthy(typeRef) {
          m := Put(m, iface.name.value, typeRef.value);
        }
      }
      i := i + 1;
    }
    assert ifaces[..i] == ifaces;
  }

  // ---------------------------------------------------------------------------
  // port_mapping

  /** What the port mapping holds for an interface. */
  datatype PortInfo = PortInfo(portName: Option<string>, direction: string, swc: string)

  /** `swc_name if swc_name else ' '` */
  function SwcCell(name: Option<string>): (r: string)
    ensures r != ""
    ensures Truthy(name) ==> r == name.value
  {
    if Truthy(name) then name.value else Placeholder
  }

  /** A port whose DATA-ELEMENT-REF has text maps the last segment of that
      reference to its own name, the direction and its component. */
  function PortEntry(port: PortView, direction: string): Option<(string, PortInfo)> {
    if Truthy(port.dataElementRef) then
      Some((LastSegment(port.dataElementRef.value),
            PortInfo(port.name, direction, SwcCell(NearestComponentName(port.ancestors)))))
    else None
  }

  /** The mapping after assigning the given ports, one after the other,
      on top of m. */
  function PortsInto(m: OMap<string, PortInfo>, ports: seq<PortView>, direction: string): (r: OMap<string, PortInfo>)
    requires Valid(m)
    ensures Valid(r)
  {
    if |ports| == 0 then m
    else
      var n := |ports| - 1;
      var r := PortsInto(m, ports[..n], direction);
      var e := PortEntry(ports[n], direction);
      if e.Some? then Put(r, e.value.0, e.value.1) else r
  }

  /** The P-ports are assigned first as senders, then the R-ports as
      receivers. */
  function PortMapping(doc: Document): (m: OMap<string, PortInfo>)
    ensures Valid(m)
  {
    PortsInto(PortsInto(Empty(), doc.pPorts, Send), doc.rPorts, Receive)
  }

  /** The interface names the ports refer to. */
  function PortInterfaces(ports: seq<PortView>): set<string> {
    if |ports| == 0 then {}
    else
      var n := |ports| - 1;
      var e := PortEntry(ports[n], Send);
      PortInterfaces(ports[..n]) + (if e.Some? then {e.value.0} else {})
  }

  /** Assigning ports adds exactly their interfaces, each with the
      direction of the loop, and leaves the other keys as they were. */
  lemma {:induction false} PortsIntoEntries(m: OMap<string, PortInfo>, ports: seq<PortView>, direction: string, k: string)
    requires Valid(m)
    ensures var r := PortsInto(m, ports, direction);
      && (k in r.values <==> k in m.values || k in PortInterfaces(ports))
      && (k in PortInterfaces(ports) ==> r.values[k].direction == direction)
      && (k !in PortInterfaces(ports) && k in m.values ==> r.values[k] == m.values[k])
  {
    if |ports| > 0 {
      var n := |ports| - 1;
      PortsIntoEntries(m, ports[..n], direction, k);
      var e := PortEntry(ports[n], direction);
      assert e.Some? <==> PortEntry(ports[n], Send).Some?;
      assert e.Some? ==> e.value.0 == PortEntry(ports[n], Send).value.0;
    }
  }

  /** An interface some R-port refers to is a receiver, whatever the P-ports
      say; one only P-ports refer to is a sender. */
  lemma PortDirection(doc: Document, k: string)
    requires k in PortMapping(doc).values
    ensures PortMapping(doc).values[k].direction == if k in PortInterfaces(doc.rPorts) then Receive else Send
  {
    var provided := PortsInto(Empty(), doc.pPorts, Send);
    PortsIntoEntries(Empty(), doc.pPorts, Send, k);
    PortsIntoEntries(provided, doc.rPorts, Receive, k);
  }

  /** Every interface any port refers to is in the mapping, and nothing
      else is. */
  lemma PortMappingKeys(doc: Document, k: string)
    ensures k in PortMapping(doc).values <==> k in PortInterfaces(doc.pPorts) || k in PortInterfaces(doc.rPorts)
  {
    var provided := PortsInto(Empty(), doc.pPorts, Send);
    PortsIntoEntries(Empty(), doc.pPorts, Send, k);
    PortsIntoEntries(provided, doc.rPorts, Receive, k);
  }

  /** The two port loops of `extract_apis`. */
  method ExtractPortMapping(doc: Document) returns (m: OMap<string, PortInfo>)
    ensures m == PortMapping(doc)
  {
    m := Empty();
    var i := 0;
    while i < |doc.pPorts|
      invariant 0 <= i <= |doc.pPorts|
      invariant m == PortsInto(Empty(), doc.pPorts[..i], Send)
    {
      var port := doc.pPorts[i];
      assert doc.pPorts[..i + 1][..i] == doc.pPorts[..i];
      if Truthy(port.dataElementRef) {
        var swc := SwcNameForPort(port);
        m := Put(m, LastSegment(port.dataElementRef.value), PortInfo(port.name, Send, SwcCell(swc)));
      }
      i := i + 1;
    }
    assert doc.pPorts[..i] == doc.pPorts;
    ghost var provided := m;
    i := 0;
    while i < |doc.rPorts|
      invariant 0 <= i <= |doc.rPorts|
      invariant m == PortsInto(provided, doc.rPorts[..i], Receive)
    {
      var port := doc.rPorts[i];
      assert doc.rPorts[..i + 1][..i] == doc.rPorts[..i];
      if Truthy(port.dataElementRef) {
        var swc := SwcNameForPort(port);
        m := Put(m, LastSegment(port.dataElementRef.value), PortInfo(port.name, Receive, SwcCell(swc)));
      }
      i := i + 1;
    }
    assert doc.rPorts[..i] == doc.rPorts;
  }

  // ---------------------------------------------------------------------------
  // apis_data: records from the port mapping, then from the runnables

  /** One API record: interface name, type, direction, SWC and task. */
  datatype ApiRow = ApiRow(apiName: string, typeRef: string, direction: string, swc: string, task: string)

  /** The interface's recorded type, or "UnknownType" when none was recorded. */
  function TypeOf(itypes: OMap<string, string>, name: string): string {
    if name in itypes.values then itypes.values[name] else UnknownType
  }

  /** The records of the port mapping, one per interface in key order. */
  function PortRows(keys: seq<string>, mapping: OMap<string, PortInfo>, itypes: OMap<string, string>): (r: seq<ApiRow>)
    requires forall k :: k in keys ==> k in mapping.values
    ensures |r| == |keys|
  {
    if |keys| == 0 then []
    else
      var n := |keys| - 1;
      var k := keys[n];
      PortRows(keys[..n], mapping, itypes) + [ApiRow(k, TypeOf(itypes, k), mapping.values[k].direction, mapping.values[k].swc, Placeholder)]
  }

  /** The record of interface keys[i] has that interface's type (or
      "UnknownType"), the mapping's direction and SWC, and no task. */
  lemma {:induction false} PortRowAt(keys: seq<string>, mapping: OMap<string, PortInfo>, itypes: OMap<string, string>, i: nat)
    requires forall k :: k in keys ==> k in mapping.values
    requires i < |keys|
    ensures var k := keys[i];
      PortRows(keys, mapping, itypes)[i] ==
        ApiRow(k, TypeOf(itypes, k), mapping.values[k].direction, mapping.values[k].swc, Placeholder)
  {
    var n := |keys| - 1;
    if i < n {
      assert forall k :: k in keys[..n] ==> k in keys;
      PortRowAt(keys[..n], mapping, itypes, i);
      assert keys[..n][i] == keys[i];
    }
  }

  /** `swc` after the given ports of a runnable: taken from the port
      mapping while it is still the placeholder. */
  function SwcAfter(ports: seq<PortAccess>, mapping: OMap<string, PortInfo>): string {
    if |ports| == 0 then Placeholder
    else
      var n := |ports| - 1;
      var swc := SwcAfter(ports[..n], mapping);
      var iface := ports[n].interfaceName;
      if iface in mapping.values && swc == Placeholder then mapping.values[iface].swc else swc
  }

  /** The SWC of the first port whose interface the mapping gives a
      component other than the placeholder. */
  function FirstMappedSwc(ports: seq<PortAccess>, mapping: OMap<string, PortInfo>): string {
    if |ports| == 0 then Placeholder
    else
      var iface := ports[0].interfaceName;
      if iface in mapping.values && mapping.values[iface].swc != Placeholder then mapping.values[iface].swc
      else FirstMappedSwc(ports[1..], mapping)
  }

  lemma {:induction false} FirstMappedSwcSnoc(ports: seq<PortAccess>, p: PortAccess, mapping: OMap<string, PortInfo>)
    ensures FirstMappedSwc(ports + [p], mapping) ==
      if FirstMappedSwc(ports, mapping) != Placeholder then FirstMappedSwc(ports, mapping)
      else if p.interfaceName in mapping.values then mapping.values[p.interfaceName].swc
      else Placeholder
  {
    if |ports| == 0 {
      assert (ports + [p])[1..] == [];
    } else {
      assert (ports + [p])[1..] == ports[1..] + [p];
      FirstMappedSwcSnoc(ports[1..], p, mapping);
    }
  }

  /** The SWC of a runnable's records is that of its first port mapped to
      a component. */
  lemma {:induction false} SwcIsFirstMapped(ports: seq<PortAccess>, mapping: OMap<string, PortInfo>)
    ensures SwcAfter(ports, mapping) == FirstMappedSwc(ports, mapping)
  {
    if |ports| > 0 {
      var n := |ports| - 1;
      SwcIsFirstMapped(ports[..n], mapping);
      assert ports == ports[..n] + [ports[n]];
      FirstMappedSwcSnoc(ports[..n], ports[n], mapping);
    }
  }

  lemma {:induction false} FirstMappedSwcKeeps(ps: seq<PortAccess>, qs: seq<PortAccess>, mapping: OMap<string, PortInfo>)
    requires FirstMappedSwc(ps, mapping) != Placeholder
    ensures FirstMappedSwc(ps + qs, mapping) == FirstMappedSwc(ps, mapping)
  {
    assert (ps + qs)[0] == ps[0];
    var iface := ps[0].interfaceName;
    if !(iface in mapping.values && mapping.values[iface].swc != Placeholder) {
      assert (ps + qs)[1..] == ps[1..] + qs;
      FirstMappedSwcKeeps(ps[1..], qs, mapping);
    }
  }

  /** Once a runnable's SWC is set, its later ports do not change it. */
  lemma SwcStaysFixed(ps: seq<PortAccess>, qs: seq<PortAccess>, mapping: OMap<string, PortInfo>)
    requires SwcAfter(ps, mapping) != Placeholder
    ensures SwcAfter(ps + qs, mapping) == SwcAfter(ps, mapping)
  {
    SwcIsFirstMapped(ps, mapping);
    SwcIsFirstMapped(ps + qs, mapping);
    FirstMappedSwcKeeps(ps, qs, mapping);
  }

  /** The direction of a runnable's record: the port mapping's when it
      knows the interface, the access point's otherwise. */
  function DirectionOf(p: PortAccess, mapping: OMap<string, PortInfo>): string {
    if p.interfaceName in mapping.values && (p.direction == Send || p.direction == Receive) then
      mapping.values[p.interfaceName].direction
    else p.direction
  }

  /** The records of one runnable's ports, all with the runnable's task. */
  function RunnableRowsOf(ports: seq<PortAccess>, task: string, mapping: OMap<string, PortInfo>, itypes: OMap<string, string>): (r: seq<ApiRow>)
    ensures |r| == |ports|
  {
    if |ports| == 0 then []
    else
      var n := |ports| - 1;
      var p := ports[n];
      RunnableRowsOf(ports[..n], task, mapping, itypes) +
        [ApiRow(p.interfaceName, TypeOf(itypes, p.interfaceName), DirectionOf(p, mapping), SwcAfter(ports, mapping), task)]
  }

  /** The record of the i-th port of a runnable names its interface, carries
      the runnable's task, and the SWC found up to and including that port. */
  lemma {:induction false} RunnableRowAt(ports: seq<PortAccess>, task: string, mapping: OMap<string, PortInfo>, itypes: OMap<string, string>, i: nat)
    requires i < |ports|
    ensures var p := ports[i];
      RunnableRowsOf(ports, task, mapping, itypes)[i] ==
        ApiRow(p.interfaceName, TypeOf(itypes, p.interfaceName), DirectionOf(p, mapping), SwcAfter(ports[..i + 1], mapping), task)
  {
    var n := |ports| - 1;
    if i < n {
      RunnableRowAt(ports[..n], task, mapping, itypes, i);
      assert ports[..n][..i + 1] == ports[..i + 1];
    } else {
      assert ports[..i + 1] == ports;
    }
  }

  lemma RunnableRowsStep(ports: seq<PortAccess>, j: nat, task: string, mapping: OMap<string, PortInfo>, itypes: OMap<string, string>)
    requires j < |ports|
    ensures var p := ports[j];
      var swc := SwcAfter(ports[..j], mapping);
      && SwcAfter(ports[..j + 1], mapping) ==
           (if p.interfaceName in mapping.values && swc == Placeholder then mapping.values[p.interfaceName].swc else swc)
      && RunnableRowsOf(ports[..j + 1], task, mapping, itypes) ==
           RunnableRowsOf(ports[..j], task, mapping, itypes) +
           [ApiRow(p.interfaceName, TypeOf(itypes, p.interfaceName), DirectionOf(p, mapping), SwcAfter(ports[..j + 1], mapping), task)]
  {
    assert ports[..j + 1][..j] == ports[..j];
  }

  /** The records of every runnable, in the order of `runnable_entities`. */
  function RunnableRows(keys: seq<string>, entities: OMap<string, seq<PortAccess>>, eventNames: seq<Option<string>>,
                        mapping: OMap<string, PortInfo>, itypes: OMap<string, string>): seq<ApiRow>
    requires forall k :: k in keys ==> k in entities.values
  {
    if |keys| == 0 then []
    else
      var n := |keys| - 1;
      var k := keys[n];
      RunnableRows(keys[..n], entities, eventNames, mapping, itypes) +
        RunnableRowsOf(entities.values[k], TaskFor(eventNames, k), mapping, itypes)
  }

  /** `apis_data` before de-duplication. */
  function ApiEntries(doc: Document): seq<ApiRow> {
    var entities := RunnableEntities(doc.runnables);
    var mapping := PortMapping(doc);
    var itypes := InterfaceTypes(doc.interfaces);
    PortRows(mapping.keys, mapping, itypes) + RunnableRows(entities.keys, entities, doc.eventNames, mapping, itypes)
  }

  // ---------------------------------------------------------------------------
  // De-duplication by interface name

  /** `deduplicated_apis` after the given records: a record is kept when its
      name is new, or when it has a task and the kept one has none. */
  function Dedup(rows: seq<ApiRow>): (d: OMap<string, ApiRow>)
    ensures Valid(d)
  {
    if |rows| == 0 then Empty()
    else
      var n := |rows| - 1;
      var d := Dedup(rows[..n]);
      var row := rows[n];
      if row.apiName !in d.values || (row.task != Placeholder && d.values[row.apiName].task == Placeholder)
      then Put(d, row.apiName, row)
      else d
  }

  /** The API rows the extractor writes: the kept records in order of first
      appearance of their names. */
  function ExtractedApis(doc: Document): seq<ApiRow> {
    var d := Dedup(ApiEntries(doc));
    ValuesInOrder(d.keys, d.values)
  }

  function ApiName(r: ApiRow): string {
    r.apiName
  }

  /** The name of a record that has a task; None for one that has not. */
  function TaskedName(r: ApiRow): Option<string> {
    if r.task != Placeholder then Some(r.apiName) else None
  }

  /** The record kept for k: the first one named k that has a task, or
      failing that the first one named k. */
  function Chosen(rows: seq<ApiRow>, k: string): (r: ApiRow)
    requires k in MapSeq(rows, ApiName)
    ensures r in rows && r.apiName == k
  {
    var tasked := MapSeq(rows, TaskedName);
    if Some(k) in tasked then rows[FirstIndex(tasked, Some(k))]
    else rows[FirstIndex(MapSeq(rows, ApiName), k)]
  }

  /** The kept record has no task exactly when no record named k has one. */
  lemma ChosenTask(rows: seq<ApiRow>, k: string)
    requires k in MapSeq(rows, ApiName)
    ensures Chosen(rows, k).task == Placeholder <==> Some(k) !in MapSeq(rows, TaskedName)
  {
    var tasked := MapSeq(rows, TaskedName);
    if Some(k) !in tasked {
      var i := FirstIndex(MapSeq(rows, ApiName), k);
      assert tasked[i] == TaskedName(rows[i]);
    }
  }

  /** A record with another name does not change the choice for k. */
  lemma ChosenOther(rows: seq<ApiRow>, x: ApiRow, k: string)
    requires k in MapSeq(rows, ApiName) && k != x.apiName
    ensures k in MapSeq(rows + [x], ApiName)
    ensures Chosen(rows + [x], k) == Chosen(rows, k)
  {
    var names := MapSeq(rows, ApiName);
    var tasked := MapSeq(rows, TaskedName);
    MapSeqSnoc(rows, x, ApiName);
    MapSeqSnoc(rows, x, TaskedName);
    var rows' := rows + [x];
    if Some(k) in tasked {
      FirstIndexOfPrefix(tasked, TaskedName(x), [Some(k)]);
      var i := FirstIndex(tasked, Some(k));
      assert rows'[i] == rows[i];
    } else {
      assert TaskedName(x) != Some(k);
      assert Some(k) !in MapSeq(rows', TaskedName);
      FirstIndexOfPrefix(names, x.apiName, [k]);
      var i := FirstIndex(names, k);
      assert rows'[i] == rows[i];
    }
  }

  /** The first record with a new name is kept. */
  lemma ChosenNew(rows: seq<ApiRow>, x: ApiRow)
    requires x.apiName !in MapSeq(rows, ApiName)
    ensures x.apiName in MapSeq(rows + [x], ApiName)
    ensures Chosen(rows + [x], x.apiName) == x
  {
    var k := x.apiName;
    var names := MapSeq(rows, ApiName);
    var tasked := MapSeq(rows, TaskedName);
    MapSeqSnoc(rows, x, ApiName);
    MapSeqSnoc(rows, x, TaskedName);
    assert Some(k) !in tasked by {
      forall i | 0 <= i < |rows| ensures tasked[i] != Some(k) {
        assert names[i] == rows[i].apiName;
      }
    }
    FirstIndexOfPrefix(names, k, []);
    FirstIndexOfPrefix(tasked, TaskedName(x), []);
  }

  /** A later record with a known name replaces the kept one exactly when it
      has a task and the kept one has none. */
  lemma ChosenRepeat(rows: seq<ApiRow>, x: ApiRow)
    requires x.apiName in MapSeq(rows, ApiName)
    ensures x.apiName in MapSeq(rows + [x], ApiName)
    ensures Chosen(rows + [x], x.apiName) ==
      if x.task != Placeholder && Chosen(rows, x.apiName).task == Placeholder then x else Chosen(rows, x.apiName)
  {
    var k := x.apiName;
    var names := MapSeq(rows, ApiName);
    var tasked := MapSeq(rows, TaskedName);
    MapSeqSnoc(rows, x, ApiName);
    MapSeqSnoc(rows, x, TaskedName);
    var rows' := rows + [x];
    ChosenTask(rows, k);
    if Some(k) in tasked {
      FirstIndexOfPrefix(tasked, TaskedName(x), [Some(k)]);
      var i := FirstIndex(tasked, Some(k));
      assert rows'[i] == rows[i];
    } else if x.task != Placeholder {
      FirstIndexOfPrefix(tasked, TaskedName(x), []);
      assert rows'[|rows|] == x;
    } else {
      assert Some(k) !in MapSeq(rows', TaskedName);
      FirstIndexOfPrefix(names, k, [k]);
      var i := FirstIndex(names, k);
      assert rows'[i] == rows[i];
    }
  }

  /** The de-duplication keeps one record per name, names in order of first
      appearance, and for each name the chosen record. */
  lemma {:induction false} DedupKeeps(rows: seq<ApiRow>)
    ensures Dedup(rows).keys == Distinct(MapSeq(rows, ApiName))
    ensures forall k :: k in Dedup(rows).values ==> Dedup(rows).values[k] == Chosen(rows, k)
  {
    if |rows| > 0 {
      var n := |rows| - 1;
      var p := rows[..n];
      var x := rows[n];
      assert rows == p + [x];
      DedupKeeps(p);
      var d := Dedup(p);
      MapSeqSnoc(p, x, ApiName);
      DistinctSnoc(MapSeq(p, ApiName), x.apiName);
      forall k | k in Dedup(rows).values
        ensures Dedup(rows).values[k] == Chosen(rows, k)
      {
        if k != x.apiName {
          ChosenOther(p, x, k);
        } else if k in d.values {
          ChosenRepeat(p, x);
        } else {
          ChosenNew(p, x);
        }
      }
    }
  }

  /** The rows written out: one per distinct interface name, in order of
      first appearance, each the chosen record for its name. */
  lemma ExtractedApisChosen(doc: Document)
    ensures var rows := ApiEntries(doc);
      var names := Distinct(MapSeq(rows, ApiName));
      var out := ExtractedApis(doc);
      && |out| == |names|
      && forall i :: 0 <= i < |out| ==> out[i] == Chosen(rows, names[i])
  {
    DedupKeeps(ApiEntries(doc));
  }

  /** No interface name is written twice, and every record's name is
      written. */
  lemma ExtractedApisNames(doc: Document)
    ensures MapSeq(ExtractedApis(doc), ApiName) == Distinct(MapSeq(ApiEntries(doc), ApiName))
    ensures NoDuplicates(MapSeq(ExtractedApis(doc), ApiName))
  {
    var rows := ApiEntries(doc);
    var names := Distinct(MapSeq(rows, ApiName));
    ExtractedApisChosen(doc);
    assert forall i :: 0 <= i < |names| ==> MapSeq(ExtractedApis(doc), ApiName)[i] == names[i];
  }

  // ---------------------------------------------------------------------------
  // extract_apis, run step by step

  /** One API row per port-mapping key, in key order. */
  method PortApiRows(mapping: OMap<string, PortInfo>, itypes: OMap<string, string>) returns (rows: seq<ApiRow>)
    requires Valid(mapping)
    ensures rows == PortRows(mapping.keys, mapping, itypes)
  {
    rows := [];
    var i := 0;
    while i < |mapping.keys|
      invariant 0 <= i <= |mapping.keys|
      invariant rows == PortRows(mapping.keys[..i], mapping, itypes)
    {
      var name := mapping.keys[i];
      var info := mapping.values[name];
      assert mapping.keys[..i + 1][..i] == mapping.keys[..i];
      rows := rows + [ApiRow(name, TypeOf(itypes, name), info.direction, info.swc, Placeholder)];
      i := i + 1;
    }
    assert mapping.keys[..i] == mapping.keys;
  }

  /** The inner loop over one runnable's ports: `swc` starts as the
      placeholder and is set from the first mapped port that has one. */
  method PortAccessRows(ports: seq<PortAccess>, task: string, mapping: OMap<string, PortInfo>, itypes: OMap<string, string>)
    returns (rows: seq<ApiRow>)
    ensures rows == RunnableRowsOf(ports, task, mapping, itypes)
  {
    rows := [];
    var swc := Placeholder;
    var j := 0;
    while j < |ports|
      invariant 0 <= j <= |ports|
      invariant rows == RunnableRowsOf(ports[..j], task, mapping, itypes)
      invariant swc == SwcAfter(ports[..j], mapping)
    {
      var p := ports[j];
      var iface := p.interfaceName;
      var direction := p.direction;
      var typeRef := TypeOf(itypes, iface);
      if iface in mapping.values {
        if swc == Placeholder {
          swc := mapping.values[iface].swc;
        }
        if direction == Send || direction == Receive {
          direction := mapping.values[iface].direction;
        }
      }
      RunnableRowsStep(ports, j, task, mapping, itypes);
      rows := rows + [ApiRow(iface, typeRef, direction, swc, task)];
      j := j + 1;
    }
    assert ports[..j] == ports;
  }

  /** One API row per port access of each runnable, runnables in key order: each row's task is the runnable's
      name when the event mapping has it. */
  method RunnableApiRows(entities: OMap<string, seq<PortAccess>>, events: OMap<Option<string>, Option<string>>,
                         ghost eventNames: seq<Option<string>>, mapping: OMap<string, PortInfo>, itypes: OMap<string, string>)
    returns (rows: seq<ApiRow>)
    requires Valid(entities) && Valid(events)
    requires events.keys == Distinct(eventNames)
    requires forall k :: k in events.values ==> events.values[k] == k
    ensures rows == RunnableRows(entities.keys, entities, eventNames, mapping, itypes)
  {
    rows := [];
    var i := 0;
    while i < |entities.keys|
      invariant 0 <= i <= |entities.keys|
      invariant rows == RunnableRows(entities.keys[..i], entities, eventNames, mapping, itypes)
    {
      var name := entities.keys[i];
      var task := Placeholder;
      if Some(name) in events.values {
        task := events.values[Some(name)].value;
      }
      assert task == TaskFor(eventNames, name);
      var more := PortAccessRows(entities.values[name], task, mapping, itypes);
      assert entities.keys[..i + 1][..i] == entities.keys[..i];
      rows := rows + more;
      i := i + 1;
    }
    assert entities.keys[..i] == entities.keys;
  }

  /** De-duplication by interface name, then the kept rows in key order. */
  method Deduplicate(entries: seq<ApiRow>) returns (apis: seq<ApiRow>)
    ensures apis == ValuesInOrder(Dedup(entries).keys, Dedup(entries).values)
  {
    var d: OMap<string, ApiRow> := Empty();
    var i := 0;
    while i < |entries|
      invariant 0 <= i <= |entries|
      invariant d == Dedup(entries[..i])
    {
      var row := entries[i];
      assert entries[..i + 1][..i] == entries[..i];
      if row.apiName !in d.values || (row.task != Placeholder && d.values[row.apiName].task == Placeholder) {
        d := Put(d, row.apiName, row);
      }
      i := i + 1;
    }
    assert entries[..i] == entries;
    apis := ValuesInOrder(d.keys, d.values);
  }

  /** `extract_apis`. */
  method ExtractApis(doc: Document) returns (apis: seq<ApiRow>)
    ensures apis == ExtractedApis(doc)
  {
    var entities := ExtractRunnableEntities(doc.runnables);
    var events := ExtractEventsAndTasks(doc.eventNames);
    var itypes := ExtractInterfaceTypes(doc.interfaces);
    var mapping := ExtractPortMapping(doc);
    var rows := PortApiRows(mapping, itypes);
    var more := RunnableApiRows(entities, events, doc.eventNames, mapping, itypes);
    apis := Deduplicate(rows + more);
  }
}
