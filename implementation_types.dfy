/** The IMPLEMENTATION-DATA-TYPE pass of the generator: after the
    application data types, the memo set is cleared and every needed name
    not yet created is walked by `_create_and_add_type`, which recurses into
    the same dependencies but keeps no path and so has no cycle check. */
module ImplementationTypes {
  import opened Wrappers
  import opened OrderedMaps
  import opened TypeModel
  import opened TypeCatalog
  import opened Arxml
  import opened TypeGraph
  import opened ApplicationTypes

  /** The plan of a defined name: a basic alias recurses into its target and
      emits nothing; an array whose definition parses recurses into its base
      and emits an array IDT; a struct with entries recurses into every field
      type and emits a structure IDT over the stored (name, type) pairs;
      anything else emits nothing. */
  function IdtPlanOf(types: Catalog, t: string): (p: Plan<IdtNode>)
    requires t in types && StructsHaveFields(types)
    ensures p.deps == Deps(types, t)
    ensures p.node.Some? ==> p.node.value.name == t
    ensures p.node.Some? <==>
      |types[t].defs| > 0 &&
      (types[t].category == "struct" ||
       (types[t].category == "array" && ParseArray(EntryType(types[t].defs[0])).Some?))
  {
    var d := types[t];
    if |d.defs| == 0 then Plan([], None)
    else if d.category == "basic" then Plan([EntryTypeName(d.defs[0])], None)
    else if d.category == "array" then
      match ParseArray(EntryType(d.defs[0]))
      case None => Plan([], None)
      case Some((base, size)) => Plan([base], Some(ImplArrayNode(t, base, size)))
    else if d.category == "struct" then
      Plan(MapSeq(d.defs, EntryTypeName), Some(ImplStructNode(t, d.defs)))
    else Plan([], None)
  }

  /** Every defined name has its plan; a primitive spelling the catalog does
      not define emits a value IDT of its own name; any other name is
      skipped. */
  function IdtPlans(types: Catalog): Plans<IdtNode>
    requires StructsHaveFields(types)
  {
    map t | t in types.Keys + BasicTypes.Keys ::
      if t in types then IdtPlanOf(types, t) else Plan([], Some(ImplValueNode(t)))
  }

  lemma IdtPlansCover(types: Catalog, t: string)
    requires StructsHaveFields(types)
    ensures t in IdtPlans(types) <==> t in types || IsBasicType(t)
    ensures t !in types && IsBasicType(t) ==> IdtPlans(types)[t] == Plan([], Some(ImplValueNode(t)))
    ensures t in types ==> IdtPlans(types)[t] == IdtPlanOf(types, t)
    ensures Emits(IdtPlans(types), t) ==> IdtPlans(types)[t].node.value.name == t
  {
    assert "boolean" in BasicTypes;
  }

  /** Both passes plan the same names, with the same dependencies, and emit
      a node for the same names. */
  lemma PlansSameShape(types: Catalog)
    requires StructsHaveFields(types)
    ensures SameShape(AdtPlans(types), IdtPlans(types))
  {
    forall k | k in AdtPlans(types)
      ensures k in IdtPlans(types)
      ensures AdtPlans(types)[k].deps == IdtPlans(types)[k].deps
      ensures AdtPlans(types)[k].node.Some? <==> IdtPlans(types)[k].node.Some?
    {
      AdtPlansCover(types, k);
      IdtPlansCover(types, k);
    }
    forall k | k in IdtPlans(types) ensures k in AdtPlans(types) {
      AdtPlansCover(types, k);
      IdtPlansCover(types, k);
    }
  }

  /** The IDT walk over the needed names from an emptied memo set. */
  function IdtPass(types: Catalog, names: seq<string>): Run<IdtNode>
    requires StructsHaveFields(types)
  {
    ResolveAllUnchecked(IdtPlans(types), names, 0, {})
  }

  /** The IDT pass walks exactly as the ADT pass does: where the ADT pass
      succeeds, the IDT pass succeeds with the same names created, in the
      same order; where the ADT pass raises the cycle error on a name, the
      IDT pass would recurse for ever on that name. */
  lemma IdtPassMirrorsAdtPass(types: Catalog, names: seq<string>)
    requires StructsHaveFields(types)
    ensures var a := AdtPass(types, names);
      var b := IdtPass(types, names);
      && b.created == a.created
      && b.emitted == a.emitted
      && (a.outcome.Done? <==> b.outcome.Done?)
      && (a.outcome.CycleError? ==> b.outcome == EndlessRecursion(a.outcome.name))
  {
    var idt := IdtPlans(types);
    PlansSameShape(types);
    SameShapeResolveAll(AdtPlans(types), idt, names, 0, {});
    UncheckedMirrorsAll(idt, names, 0, {});
  }

  /** When the ADT pass succeeds, the IDT package receives one node per
      emitted name, named after it, no name twice, and every dependency
      with a node of its own before the node that refers to it. */
  lemma IdtPassEmitsOnce(types: Catalog, names: seq<string>)
    requires StructsHaveFields(types)
    requires AdtPass(types, names).outcome.Done?
    ensures var r := IdtPass(types, names);
      && r.outcome.Done?
      && NoDuplicates(r.emitted)
      && r.created == (set k | k in r.emitted)
      && |r.nodes| == |r.emitted|
      && (forall j :: 0 <= j < |r.emitted| ==> r.nodes[j].name == r.emitted[j])
      && DepsFirst(IdtPlans(types), {}, r.emitted)
  {
    var idt := IdtPlans(types);
    var r := IdtPass(types, names);
    IdtPassMirrorsAdtPass(types, names);
    UncheckedMirrorsAll(idt, names, 0, {});
    ResolveAllFresh(idt, names, 0, {});
    ResolveAllDepsFirst(idt, names, 0, {});
    forall j | 0 <= j < |r.emitted| ensures r.nodes[j].name == r.emitted[j] {
      IdtPlansCover(types, r.emitted[j]);
    }
  }

  /** On an acyclic catalog the IDT pass never recurses for ever. */
  lemma AcyclicCatalogIdtPasses(types: Catalog, rank: map<string, nat>, names: seq<string>)
    requires StructsHaveFields(types)
    requires TypeModel.Ranked(types, rank)
    ensures IdtPass(types, names).outcome.Done?
  {
    AcyclicCatalogPasses(types, rank, names);
    IdtPassMirrorsAdtPass(types, names);
  }

  /** Mutually recursive structs A and B, left to the IDT pass alone,
      recurse for ever on A. */
  lemma CyclicTypesRecurse(types: Catalog)
    requires HasCyclicTypes(types) && StructsHaveFields(types)
    ensures IdtPass(types, ["A"]).outcome == EndlessRecursion("A")
  {
    CyclicTypesFail(types);
    IdtPassMirrorsAdtPass(types, ["A"]);
  }

  /** The IDT loop, run imperatively: a resolver over the IDT plans creates
      each needed name in turn into the implementation package. */
  method CreateImplementationTypes(types: Catalog, names: seq<string>) returns (outcome: Outcome, pkg: seq<IdtNode>)
    requires StructsHaveFields(types)
    ensures outcome == IdtPass(types, names).outcome
    ensures pkg == IdtPass(types, names).nodes
  {
    var resolver := new Resolver(IdtPlans(types));
    outcome := resolver.CreateAllUnchecked(names);
    pkg := resolver.pkg;
  }
}
