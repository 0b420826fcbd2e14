/** The assembly half of `generate`: the needed type names, one
    SENDER-RECEIVER-INTERFACE per API name, and one component per SWC with a
    port per API entry and a runnable per task. */
module Assembly {
  import opened Wrappers
  import opened OrderedMaps
  import opened TypeModel
  import opened ApiCatalog
  import opened Arxml

  function TypeRefOf(e: ApiEntry): string { e.typeRef }
  function ApiNameOf(e: ApiEntry): string { e.apiName }
  function SwcOf(e: ApiEntry): string { e.swcName }
  function TaskOf(e: ApiEntry): string { e.task }
  function EntryOf(e: ApiEntry): ApiEntry { e }

  /** The (port, direction, interface) access a task's runnable gets for one
      API: port and interface are both named after the API. */
  function AccessOf(e: ApiEntry): (string, string, string) { (e.apiName, e.portDir, e.apiName) }

  /** The port a component gets for one API. */
  function PortOf(e: ApiEntry): PortPrototype { PortNode(e.apiName, e.apiName, e.portDir) }

  /** `all_types_needed`: the type references of all entries, each once. The
      source collects them in a set; here they come in order of first
      occurrence. */
  function NeededTypes(apis: seq<ApiEntry>): (r: seq<string>)
    ensures NoDuplicates(r)
    ensures forall t :: t in r <==> t in MapSeq(apis, TypeRefOf)
  {
    Distinct(MapSeq(apis, TypeRefOf))
  }

  // ---------------------------------------------------------------------------
  // Interfaces

  /** `created_ifaces` after a run of entries: the API names seen. */
  function NamesSeen(apis: seq<ApiEntry>): (r: set<string>)
    ensures forall x :: x in r <==> x in MapSeq(apis, ApiNameOf)
  {
    if |apis| == 0 then {}
    else
      var n := |apis| - 1;
      assert MapSeq(apis, ApiNameOf) == MapSeq(apis[..n], ApiNameOf) + [apis[n].apiName];
      NamesSeen(apis[..n]) + {apis[n].apiName}
  }

  /** The entries whose API name has not appeared in an earlier entry. */
  function NewNameEntries(apis: seq<ApiEntry>): seq<ApiEntry> {
    if |apis| == 0 then []
    else
      var n := |apis| - 1;
      if apis[n].apiName in NamesSeen(apis[..n]) then NewNameEntries(apis[..n])
      else NewNameEntries(apis[..n]) + [apis[n]]
  }

  /** An interface per entry, built from its name, type reference and init value. */
  function InterfacesOf(types: Catalog, es: seq<ApiEntry>): (r: seq<SrInterface>)
    ensures |r| == |es|
  {
    if |es| == 0 then []
    else
      var n := |es| - 1;
      InterfacesOf(types, es[..n]) + [InterfaceNode(types, es[n].apiName, es[n].typeRef, es[n].initValue)]
  }

  lemma {:induction false} InterfacesOfAt(types: Catalog, es: seq<ApiEntry>, j: nat)
    requires j < |es|
    ensures InterfacesOf(types, es)[j] == InterfaceNode(types, es[j].apiName, es[j].typeRef, es[j].initValue)
  {
    var n := |es| - 1;
    if j < n {
      InterfacesOfAt(types, es[..n], j);
    }
  }

  /** The interface loop: an API name not seen before gets an interface built
      from that entry's type reference and init value. */
  function Interfaces(types: Catalog, apis: seq<ApiEntry>): seq<SrInterface> {
    InterfacesOf(types, NewNameEntries(apis))
  }

  /** The first entry with the given API name. */
  function FirstApi(apis: seq<ApiEntry>, name: string): (e: ApiEntry)
    requires name in MapSeq(apis, ApiNameOf)
    ensures e in apis && e.apiName == name
  {
    apis[FirstIndex(MapSeq(apis, ApiNameOf), name)]
  }

  /** Appending an entry does not move the first entry of a name already present. */
  lemma FirstApiOfPrefix(p: seq<ApiEntry>, e: ApiEntry, y: string)
    requires y in MapSeq(p, ApiNameOf)
    ensures y in MapSeq(p + [e], ApiNameOf)
    ensures FirstApi(p + [e], y) == FirstApi(p, y)
  {
    var names := MapSeq(p + [e], ApiNameOf);
    var pnames := MapSeq(p, ApiNameOf);
    assert names == pnames + [e.apiName];
    FirstIndexOfPrefix(pnames, e.apiName, [y]);
  }

  /** An entry whose name is new is the first entry of that name. */
  lemma FirstApiOfNew(p: seq<ApiEntry>, e: ApiEntry)
    requires e.apiName !in MapSeq(p, ApiNameOf)
    ensures e.apiName in MapSeq(p + [e], ApiNameOf)
    ensures FirstApi(p + [e], e.apiName) == e
  {
    var names := MapSeq(p + [e], ApiNameOf);
    var pnames := MapSeq(p, ApiNameOf);
    assert names == pnames + [e.apiName];
    FirstIndexOfPrefix(pnames, e.apiName, []);
  }

  /** The entries that introduce a new name are, in order, the first entry
      of each distinct API name. */
  lemma {:induction false} NewNameEntriesFirst(apis: seq<ApiEntry>)
    ensures var d := Distinct(MapSeq(apis, ApiNameOf));
      var r := NewNameEntries(apis);
      && |r| == |d|
      && forall j :: 0 <= j < |d| ==> r[j] == FirstApi(apis, d[j])
  {
    if |apis| > 0 {
      var n := |apis| - 1;
      var p := apis[..n];
      var e := apis[n];
      assert apis == p + [e];
      NewNameEntriesFirst(p);
      var pnames := MapSeq(p, ApiNameOf);
      assert MapSeq(apis, ApiNameOf) == pnames + [e.apiName];
      DistinctSnoc(pnames, e.apiName);
      var dp := Distinct(pnames);
      var rp := NewNameEntries(p);
      var d := Distinct(MapSeq(apis, ApiNameOf));
      var r := NewNameEntries(apis);
      forall j | 0 <= j < |dp| ensures FirstApi(apis, dp[j]) == FirstApi(p, dp[j]) {
        FirstApiOfPrefix(p, e, dp[j]);
      }
      if e.apiName in pnames {
        assert r == rp && d == dp;
      } else {
        assert r == rp + [e] && d == dp + [e.apiName];
        FirstApiOfNew(p, e);
        forall j | 0 <= j < |d| ensures r[j] == FirstApi(apis, d[j]) {
          if j < |dp| {
            assert r[j] == rp[j] && d[j] == dp[j];
          }
        }
      }
    }
  }

  /** Exactly one interface per distinct API name, in order of first
      occurrence, each built from the first entry with that name. */
  lemma InterfacesOnePerName(types: Catalog, apis: seq<ApiEntry>)
    ensures var d := Distinct(MapSeq(apis, ApiNameOf));
      var r := Interfaces(types, apis);
      && |r| == |d|
      && forall j :: 0 <= j < |d| ==>
           r[j] == InterfaceNode(types, d[j], FirstApi(apis, d[j]).typeRef, FirstApi(apis, d[j]).initValue)
  {
    var d := Distinct(MapSeq(apis, ApiNameOf));
    NewNameEntriesFirst(apis);
    forall j | 0 <= j < |d|
      ensures Interfaces(types, apis)[j] == InterfaceNode(types, d[j], FirstApi(apis, d[j]).typeRef, FirstApi(apis, d[j]).initValue)
    {
      InterfacesOfAt(types, NewNameEntries(apis), j);
    }
  }

  /** One more entry adds its name to the names seen, extends the new-name
      entries by that entry exactly when its name is new, and then extends
      the interfaces by one built from it. */
  lemma InterfacesStep(types: Catalog, apis: seq<ApiEntry>, i: nat)
    requires i < |apis|
    ensures NamesSeen(apis[..i + 1]) == NamesSeen(apis[..i]) + {apis[i].apiName}
    ensures NewNameEntries(apis[..i + 1]) ==
      if apis[i].apiName in NamesSeen(apis[..i]) then NewNameEntries(apis[..i])
      else NewNameEntries(apis[..i]) + [apis[i]]
    ensures InterfacesOf(types, NewNameEntries(apis[..i]) + [apis[i]]) ==
      InterfacesOf(types, NewNameEntries(apis[..i])) + [InterfaceNode(types, apis[i].apiName, apis[i].typeRef, apis[i].initValue)]
  {
    assert apis[..i + 1][..i] == apis[..i];
    var f := NewNameEntries(apis[..i]);
    assert (f + [apis[i]])[..|f|] == f;
  }

  /** The loop body of CreateInterfaces keeps its invariant. */
  lemma InterfacesContinue(types: Catalog, apis: seq<ApiEntry>, i: nat, ifaces: seq<SrInterface>, created: set<string>)
    requires i < |apis|
    requires ifaces == InterfacesOf(types, NewNameEntries(apis[..i])) && created == NamesSeen(apis[..i])
    ensures var e := apis[i];
      && (if e.apiName !in created then ifaces + [InterfaceNode(types, e.apiName, e.typeRef, e.initValue)] else ifaces)
           == InterfacesOf(types, NewNameEntries(apis[..i + 1]))
      && created + {e.apiName} == NamesSeen(apis[..i + 1])
  {
    InterfacesStep(types, apis, i);
  }

  /** `for entry in api_entries: if api_name not in created_ifaces: ...` */
  method CreateInterfaces(types: Catalog, apis: seq<ApiEntry>) returns (ifaces: seq<SrInterface>)
    ensures ifaces == Interfaces(types, apis)
  {
    var created: set<string> := {};
    ifaces := [];
    var i := 0;
    while i < |apis|
      invariant 0 <= i <= |apis|
      invariant ifaces == InterfacesOf(types, NewNameEntries(apis[..i]))
      invariant created == NamesSeen(apis[..i])
    {
      var e := apis[i];
      InterfacesContinue(types, apis, i, ifaces, created);
      if e.apiName !in created {
        ifaces := ifaces + [InterfaceNode(types, e.apiName, e.typeRef, e.initValue)];
      }
      created := created + {e.apiName};
      i := i + 1;
    }
    assert apis[..|apis|] == apis;
  }

  // ---------------------------------------------------------------------------
  // Components

  /** One runnable per task, named after that task, with an access for every
      entry of that task in order. */
  function RunnablesOf(entries: seq<ApiEntry>, tasks: seq<string>): (r: seq<Runnable>)
    ensures |r| == |tasks|
  {
    MapSeq(tasks, t => RunnableNode(t, t, Select(entries, TaskOf, AccessOf, t)))
  }

  /** One task event per task, referring to the runnable of that name in the
      component's internal behaviour. */
  function TaskEventsOf(swc: string, tasks: seq<string>): (r: seq<TaskEvent>)
    ensures |r| == |tasks|
  {
    MapSeq(tasks, t => TaskEvent(TaskEventRef(swc, t), t))
  }

  /** The component of one SWC over that SWC's entries. */
  function ComponentNode(swc: string, entries: seq<ApiEntry>): Component {
    var tasks := Distinct(MapSeq(entries, TaskOf));
    Component(swc, MapSeq(entries, PortOf), swc + "_InternalBehavior",
      RunnablesOf(entries, tasks), TaskEventsOf(swc, tasks))
  }

  function ComponentsOf(apis: seq<ApiEntry>, swcs: seq<string>): (r: seq<Component>)
    ensures |r| == |swcs|
  {
    MapSeq(swcs, s => ComponentNode(s, Select(apis, SwcOf, EntryOf, s)))
  }

  /** `swc_groups`: the entries grouped by SWC, one component per group in
      order of first occurrence. */
  function Components(apis: seq<ApiEntry>): seq<Component> {
    ComponentsOf(apis, Distinct(MapSeq(apis, SwcOf)))
  }

  /** An element with key k is selected under k. */
  lemma {:induction false} SelectHas<T, K, V>(xs: seq<T>, key: T -> K, val: T -> V, i: nat)
    requires i < |xs|
    ensures val(xs[i]) in Select(xs, key, val, key(xs[i]))
  {
    var n := |xs| - 1;
    if i < n {
      SelectHas(xs[..n], key, val, i);
    }
  }

  /** Every selected value comes from an element with key k. */
  lemma {:induction false} SelectFrom<T, K, V>(xs: seq<T>, key: T -> K, val: T -> V, k: K, v: V)
    requires v in Select(xs, key, val, k)
    ensures exists i :: 0 <= i < |xs| && key(xs[i]) == k && val(xs[i]) == v
  {
    var n := |xs| - 1;
    if v in Select(xs[..n], key, val, k) {
      SelectFrom(xs[..n], key, val, k, v);
      var i :| 0 <= i < n && key(xs[..n][i]) == k && val(xs[..n][i]) == v;
      assert xs[i] == xs[..n][i];
    } else {
      assert key(xs[n]) == k && val(xs[n]) == v;
    }
  }

  /** One component per distinct SWC name, in order of first occurrence. */
  lemma ComponentsOnePerSwc(apis: seq<ApiEntry>)
    ensures var d := Distinct(MapSeq(apis, SwcOf));
      && |Components(apis)| == |d|
      && forall j :: 0 <= j < |d| ==> Components(apis)[j].name == d[j]
  {
    var d := Distinct(MapSeq(apis, SwcOf));
    forall j | 0 <= j < |d| ensures Components(apis)[j].name == d[j] {
    }
  }

  /** The component of an SWC over given entries is named after the SWC and
      has one port per entry, in order. */
  lemma ComponentNodePorts(swc: string, entries: seq<ApiEntry>)
    ensures ComponentNode(swc, entries).name == swc
    ensures ComponentNode(swc, entries).ports == MapSeq(entries, PortOf)
  {
  }

  /** The component at index j is the one of the j-th distinct SWC, over
      that SWC's entries. */
  lemma ComponentAt(apis: seq<ApiEntry>, j: nat)
    requires j < |Components(apis)|
    ensures var d := Distinct(MapSeq(apis, SwcOf));
      && Components(apis)[j].name == d[j]
      && Components(apis)[j].ports == MapSeq(Select(apis, SwcOf, EntryOf, d[j]), PortOf)
  {
    var d := Distinct(MapSeq(apis, SwcOf));
    ComponentNodePorts(d[j], Select(apis, SwcOf, EntryOf, d[j]));
  }

  /** Some component named after the SWC of entry i has that entry's port. */
  ghost predicate PortPlaced(apis: seq<ApiEntry>, comps: seq<Component>, i: nat)
    requires i < |apis|
  {
    exists j :: 0 <= j < |comps| && comps[j].name == apis[i].swcName && PortOf(apis[i]) in comps[j].ports
  }

  /** Some entry of the SWC component j is named after has port p. */
  ghost predicate PortSourced(apis: seq<ApiEntry>, comps: seq<Component>, j: nat, p: PortPrototype)
    requires j < |comps|
  {
    exists i :: 0 <= i < |apis| && apis[i].swcName == comps[j].name && p == PortOf(apis[i])
  }

  /** The port of entry i is in the component named after its SWC. */
  lemma EntryPortPlaced(apis: seq<ApiEntry>, i: nat)
    requires i < |apis|
    ensures PortPlaced(apis, Components(apis), i)
  {
    var d := Distinct(MapSeq(apis, SwcOf));
    var s := apis[i].swcName;
    assert MapSeq(apis, SwcOf)[i] == s;
    assert s in d;
    var j :| 0 <= j < |d| && d[j] == s;
    ComponentAt(apis, j);
    SelectHas(apis, SwcOf, EntryOf, i);
    var entries := Select(apis, SwcOf, EntryOf, s);
    assert apis[i] in entries by {
      assert SwcOf(apis[i]) == s && EntryOf(apis[i]) == apis[i];
    }
    var k :| 0 <= k < |entries| && entries[k] == apis[i];
    var ports := MapSeq(entries, PortOf);
    assert ports[k] == PortOf(apis[i]);
    var comps := Components(apis);
    assert comps[j].ports == ports;
    assert comps[j].name == s && PortOf(apis[i]) in comps[j].ports;
  }

  /** A port of component j comes from an entry of that component's SWC. */
  lemma ComponentPortSource(apis: seq<ApiEntry>, j: nat, p: PortPrototype)
    requires j < |Components(apis)| && p in Components(apis)[j].ports
    ensures PortSourced(apis, Components(apis), j, p)
  {
    var d := Distinct(MapSeq(apis, SwcOf));
    ComponentAt(apis, j);
    var entries := Select(apis, SwcOf, EntryOf, d[j]);
    var k :| 0 <= k < |entries| && MapSeq(entries, PortOf)[k] == p;
    SelectFrom(apis, SwcOf, EntryOf, d[j], entries[k]);
  }

  /** Each component has exactly the ports of the entries of its SWC: every
      entry's port is in the component named after its SWC, and every port
      of a component comes from an entry of that SWC. */
  lemma ComponentPorts(apis: seq<ApiEntry>)
    ensures var comps := Components(apis);
      && (forall i :: 0 <= i < |apis| ==> PortPlaced(apis, comps, i))
      && (forall j, p :: 0 <= j < |comps| && p in comps[j].ports ==> PortSourced(apis, comps, j, p))
  {
    forall i | 0 <= i < |apis| ensures PortPlaced(apis, Components(apis), i) {
      EntryPortPlaced(apis, i);
    }
    forall j, p | 0 <= j < |Components(apis)| && p in Components(apis)[j].ports
      ensures PortSourced(apis, Components(apis), j, p)
    {
      ComponentPortSource(apis, j, p);
    }
  }

  /** Within a component, one runnable per distinct task of its entries, in
      order of first occurrence and named after its task, and beside each
      runnable a task event naming that task and referring to that runnable. */
  lemma ComponentRunnables(swc: string, entries: seq<ApiEntry>)
    ensures var c := ComponentNode(swc, entries);
      var tasks := Distinct(MapSeq(entries, TaskOf));
      && |c.runnables| == |tasks| && |c.taskEvents| == |tasks|
      && NoDuplicates(tasks)
      && (forall t :: t in tasks <==> t in MapSeq(entries, TaskOf))
      && forall k :: 0 <= k < |tasks| ==>
           && c.runnables[k].name == tasks[k]
           && c.taskEvents[k].taskName == tasks[k]
           && c.taskEvents[k].runnableRef == "/Components/" + swc + "/" + swc + "_InternalBehavior/" + c.runnables[k].name
  {
    var tasks := Distinct(MapSeq(entries, TaskOf));
    forall k | 0 <= k < |tasks|
      ensures RunnablesOf(entries, tasks)[k].name == tasks[k]
      ensures TaskEventsOf(swc, tasks)[k] == TaskEvent(TaskEventRef(swc, tasks[k]), tasks[k])
    {
    }
  }

  /** An access for one entry: its point is in the runnable of its task. */
  lemma {:induction false} AccessPointsHas(task: string, accesses: seq<(string, string, string)>, i: nat)
    requires i < |accesses|
    requires AccessPointOf(task, accesses[i].0, accesses[i].1, accesses[i].2).Some?
    ensures AccessPointOf(task, accesses[i].0, accesses[i].1, accesses[i].2).value in AccessPoints(task, accesses)
  {
    var n := |accesses| - 1;
    if i < n {
      AccessPointsHas(task, accesses[..n], i);
    }
  }

  /** Every entry with direction R gets a receive point, and every entry
      with direction S a send point, in the runnable of its task. */
  lemma EntryAccessPoint(entries: seq<ApiEntry>, i: nat)
    requires i < |entries| && (entries[i].portDir == "R" || entries[i].portDir == "S")
    ensures var e := entries[i];
      var r := RunnableNode(e.task, e.task, Select(entries, TaskOf, AccessOf, e.task));
      AccessPointOf(e.task, e.apiName, e.portDir, e.apiName).Some? &&
      AccessPointOf(e.task, e.apiName, e.portDir, e.apiName).value in r.points
  {
    var e := entries[i];
    var accesses := Select(entries, TaskOf, AccessOf, e.task);
    SelectHas(entries, TaskOf, AccessOf, i);
    var k :| 0 <= k < |accesses| && accesses[k] == AccessOf(e);
    AccessPointsHas(e.task, accesses, k);
  }

  /** One port per entry of the component, in entry order. */
  method CreatePorts(entries: seq<ApiEntry>) returns (ports: seq<PortPrototype>)
    ensures ports == MapSeq(entries, PortOf)
  {
    ports := [];
    var i := 0;
    while i < |entries|
      invariant 0 <= i <= |entries|
      invariant ports == MapSeq(entries[..i], PortOf)
    {
      assert entries[..i + 1][..i] == entries[..i];
      ports := ports + [PortOf(entries[i])];
      i := i + 1;
    }
    assert entries[..|entries|] == entries;
  }

  /** The runnables and task events over the first k tasks extend by the
      k-th task's runnable and event. */
  lemma RunnablesStep(swc: string, entries: seq<ApiEntry>, tasks: seq<string>, k: nat)
    requires k < |tasks|
    ensures RunnablesOf(entries, tasks[..k + 1]) == RunnablesOf(entries, tasks[..k]) + [RunnableNode(tasks[k], tasks[k], Select(entries, TaskOf, AccessOf, tasks[k]))]
    ensures TaskEventsOf(swc, tasks[..k + 1]) == TaskEventsOf(swc, tasks[..k]) + [TaskEvent(TaskEventRef(swc, tasks[k]), tasks[k])]
  {
    assert tasks[..k + 1][..k] == tasks[..k];
  }

  /** Grouping by task, and one runnable and task event per task. */
  method CreateRunnables(swc: string, entries: seq<ApiEntry>) returns (runnables: seq<Runnable>, events: seq<TaskEvent>)
    ensures var tasks := Distinct(MapSeq(entries, TaskOf));
      runnables == RunnablesOf(entries, tasks) && events == TaskEventsOf(swc, tasks)
  {
    var taskRunnables := Group(entries, TaskOf, AccessOf);
    GroupByContents(entries, TaskOf, AccessOf);
    var tasks := taskRunnables.keys;
    runnables := [];
    events := [];
    var k := 0;
    while k < |tasks|
      invariant 0 <= k <= |tasks|
      invariant runnables == RunnablesOf(entries, tasks[..k])
      invariant events == TaskEventsOf(swc, tasks[..k])
    {
      var t := tasks[k];
      RunnablesStep(swc, entries, tasks, k);
      runnables := runnables + [RunnableNode(t, t, taskRunnables.values[t])];
      events := events + [TaskEvent(TaskEventRef(swc, t), t)];
      k := k + 1;
    }
    assert tasks[..|tasks|] == tasks;
  }

  /** The component loop body: ports for all entries, then the runnables. */
  method AssembleComponent(swc: string, entries: seq<ApiEntry>) returns (c: Component)
    ensures c == ComponentNode(swc, entries)
  {
    var ports := CreatePorts(entries);
    var runnables, events := CreateRunnables(swc, entries);
    c := Component(swc, ports, swc + "_InternalBehavior", runnables, events);
  }

  lemma ComponentsStep(apis: seq<ApiEntry>, swcs: seq<string>, j: nat)
    requires j < |swcs|
    ensures ComponentsOf(apis, swcs[..j + 1]) == ComponentsOf(apis, swcs[..j]) + [ComponentNode(swcs[j], Select(apis, SwcOf, EntryOf, swcs[j]))]
  {
    assert swcs[..j + 1][..j] == swcs[..j];
  }

  /** One component per SWC name, in order of first appearance. */
  method CreateComponents(apis: seq<ApiEntry>) returns (comps: seq<Component>)
    ensures comps == Components(apis)
  {
    var swcGroups := Group(apis, SwcOf, EntryOf);
    GroupByContents(apis, SwcOf, EntryOf);
    var swcs := swcGroups.keys;
    comps := [];
    var j := 0;
    while j < |swcs|
      invariant 0 <= j <= |swcs|
      invariant comps == ComponentsOf(apis, swcs[..j])
    {
      ComponentsStep(apis, swcs, j);
      var c := AssembleComponent(swcs[j], swcGroups.values[swcs[j]]);
      comps := comps + [c];
      j := j + 1;
    }
    assert swcs[..|swcs|] == swcs;
  }
}
