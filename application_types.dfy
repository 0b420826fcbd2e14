/** The application-data-type pass of the generator (`create_adt_recursive`):
    a post-order, memoised walk of the type graph that rejects a name met
    again on its own visiting path. What each name contributes is its plan;
    the walk itself is TypeGraph.Resolve. */
module ApplicationTypes {
  import opened Wrappers
  import opened Text
  import opened OrderedMaps
  import opened TypeModel
  import opened Arxml
  import opened TypeGraph

  /** The (field name, field type) an APPLICATION-RECORD-ELEMENT gets for
      defs[i]: a stored pair is trimmed; a bare definition is named after the
      1-based position of its first occurrence. */
  function RecordField(defs: seq<Entry>, i: nat): (r: (string, string))
    requires i < |defs|
    ensures r.1 == EntryTypeName(defs[i])
    ensures defs[i].Field? ==> r.0 == Trim(defs[i].fieldName)
  {
    match defs[i]
    case Field(n, t) => (Trim(n), Trim(t))
    case Plain(s) => ("Field" + NatToString(FirstIndex(defs, defs[i]) + 1), Trim(s))
  }

  function RecordFields(defs: seq<Entry>): seq<(string, string)> {
    seq(|defs|, i requires 0 <= i < |defs| => RecordField(defs, i))
  }

  /** What `create_adt_recursive` does with a name the catalog defines, once
      the name is on the path: a basic alias resolves its target and emits
      nothing; an array whose first definition matches the pattern resolves
      its base and emits an APPLICATION-ARRAY-DATA-TYPE; a struct with
      definitions resolves its field types in order and emits an
      APPLICATION-RECORD-DATA-TYPE; anything else does nothing. */
  function AdtPlanOf(types: Catalog, t: string): (p: Plan<AdtNode>)
    requires t in types
    ensures p.deps == Deps(types, t)
    ensures p.node.Some? ==> p.node.value.name == t
    ensures p.node.Some? <==>
      |types[t].defs| > 0 &&
      (types[t].category == "struct" ||
       (types[t].category == "array" && ParseArray(EntryType(types[t].defs[0])).Some?))
  {
    var d := types[t];
    if |d.defs| == 0 then Plan([], None)
    else if d.category == "basic" then Plan([EntryTypeName(d.defs[0])], None)
    else if d.category == "array" then
      match ParseArray(EntryType(d.defs[0]))
      case None => Plan([], None)
      case Some((base, size)) => Plan([base], Some(AppArrayNode(t, base, size)))
    else if d.category == "struct" then
      Plan(MapSeq(d.defs, EntryTypeName), Some(AppRecordNode(types, t, RecordFields(d.defs))))
    else Plan([], None)
  }

  /** Every defined name has its plan; a primitive spelling the catalog does
      not define emits an APPLICATION-PRIMITIVE-DATA-TYPE; any other name is
      skipped. */
  function AdtPlans(types: Catalog): Plans<AdtNode> {
    map t | t in types.Keys + BasicTypes.Keys ::
      if t in types then AdtPlanOf(types, t) else Plan([], Some(AppPrimitive(t)))
  }

  /** The plans cover exactly the defined names and the primitive spellings,
      and every node carries the name it is planned for. */
  lemma AdtPlansCover(types: Catalog, t: string)
    ensures t in AdtPlans(types) <==> t in types || IsBasicType(t)
    ensures t !in types && IsBasicType(t) ==> AdtPlans(types)[t] == Plan([], Some(AppPrimitive(t)))
    ensures t in types ==> AdtPlans(types)[t] == AdtPlanOf(types, t)
    ensures Emits(AdtPlans(types), t) ==> AdtPlans(types)[t].node.value.name == t
  {
    assert "boolean" in BasicTypes;
  }

  /** The ADT walk started at each needed name in turn, with an empty path,
      from an empty memo set; the first cycle stops the loop. */
  function AdtPass(types: Catalog, names: seq<string>): Run<AdtNode> {
    ResolveAll(AdtPlans(types), names, 0, {})
  }

  /** The package receives one node per emitted name, named after it, and no
      name twice; the memo set ends up holding exactly the emitted names. */
  lemma AdtPassEmitsOnce(types: Catalog, names: seq<string>)
    ensures var r := AdtPass(types, names);
      && NoDuplicates(r.emitted)
      && r.created == (set k | k in r.emitted)
      && |r.nodes| == |r.emitted|
      && forall j :: 0 <= j < |r.emitted| ==> r.nodes[j].name == r.emitted[j]
  {
    var plans := AdtPlans(types);
    var r := AdtPass(types, names);
    ResolveAllFresh(plans, names, 0, {});
    forall j | 0 <= j < |r.emitted| ensures r.nodes[j].name == r.emitted[j] {
      AdtPlansCover(types, r.emitted[j]);
    }
  }

  /** When the pass succeeds, every dependency that has a node of its own
      (an array's base, a field type, an alias target) is appended before the
      node that refers to it, and every needed name with a node is created. */
  lemma AdtPassDepsFirst(types: Catalog, names: seq<string>)
    requires AdtPass(types, names).outcome.Done?
    ensures DepsFirst(AdtPlans(types), {}, AdtPass(types, names).emitted)
    ensures forall k :: 0 <= k < |names| && Emits(AdtPlans(types), names[k]) ==> names[k] in AdtPass(types, names).created
  {
    ResolveAllDepsFirst(AdtPlans(types), names, 0, {});
  }

  /** The plan ranking induced by a catalog ranking: primitives at the
      bottom, every defined name one above its catalog rank. */
  function PlanRank(types: Catalog, rank: map<string, nat>): map<string, nat>
    requires forall t :: t in types ==> t in rank
  {
    map t | t in types.Keys + BasicTypes.Keys :: if t in types then rank[t] + 1 else 0
  }

  /** An acyclic catalog never makes the pass raise the cycle error. */
  lemma AcyclicCatalogPasses(types: Catalog, rank: map<string, nat>, names: seq<string>)
    requires TypeModel.Ranked(types, rank)
    ensures AdtPass(types, names).outcome.Done?
  {
    var plans := AdtPlans(types);
    var pr := PlanRank(types, rank);
    forall k | k in plans
      ensures k in pr && forall d :: d in plans[k].deps && d in plans ==> d in pr && pr[d] < pr[k]
    {
      AdtPlansCover(types, k);
      forall d | d in plans[k].deps && d in plans ensures d in pr && pr[d] < pr[k] {
        AdtPlansCover(types, d);
      }
    }
    assert TypeGraph.Ranked(plans, pr);
    AcyclicResolvesAll(plans, pr, names, 0, {});
  }

  /** Running the pass a second time over the same names, with the memo set
      the first run left, appends nothing. */
  lemma AdtPassAgain(types: Catalog, names: seq<string>)
    requires AdtPass(types, names).outcome.Done?
    ensures var r := AdtPass(types, names);
      ResolveAll(AdtPlans(types), names, 0, r.created) == Run(Done, r.created, [], [])
  {
    var r := AdtPass(types, names);
    ResolveAllAgain(AdtPlans(types), names, 0, {}, r.created);
  }

  // ---------------------------------------------------------------------------
  // Two catalogs worked through

  /** A catalog holding S { a: uint8, b: Array4 } with Array4 = uint8[4]
      (and not redefining uint8). */
  predicate HasNestedTypes(types: Catalog) {
    && "S" in types && types["S"] == TypeDef("struct", [Field("a", "uint8"), Field("b", "Array4")])
    && "Array4" in types && types["Array4"] == TypeDef("array", [Plain("uint8[4]")])
    && "uint8" !in types
  }

  lemma NestedPrimitivePlan(types: Catalog)
    requires HasNestedTypes(types)
    ensures "uint8" in AdtPlans(types) && AdtPlans(types)["uint8"] == Plan([], Some(AppPrimitive("uint8")))
  {
    assert "uint8" in BasicTypes;
    AdtPlansCover(types, "uint8");
  }

  lemma Uint8ArrayOfFour()
    ensures ParseArray("uint8[4]") == Some(("uint8", 4))
  {
    assert IsWord("uint8") by {
      forall i | 0 <= i < 5 ensures IsWordChar("uint8"[i]) { }
    }
    ParseFormatArray("uint8", 4);
    assert FormatArray("uint8", 4) == "uint8[4]";
  }

  lemma NestedArrayPlanOf(types: Catalog)
    requires "Array4" in types && types["Array4"] == TypeDef("array", [Plain("uint8[4]")])
    ensures AdtPlanOf(types, "Array4") == Plan(["uint8"], Some(AppArrayNode("Array4", "uint8", 4)))
  {
    Uint8ArrayOfFour();
  }

  lemma NestedArrayPlan(types: Catalog)
    requires HasNestedTypes(types)
    ensures "Array4" in AdtPlans(types)
    ensures AdtPlans(types)["Array4"] == Plan(["uint8"], Some(AppArrayNode("Array4", "uint8", 4)))
  {
    NestedArrayPlanOf(types);
    AdtPlansCover(types, "Array4");
  }

  lemma NestedRecordPlanOf(types: Catalog)
    requires "S" in types && types["S"] == TypeDef("struct", [Field("a", "uint8"), Field("b", "Array4")])
    ensures AdtPlanOf(types, "S") ==
      Plan(["uint8", "Array4"], Some(AppRecordNode(types, "S", [("a", "uint8"), ("b", "Array4")])))
  {
    TrimOfTrimmed("uint8");
    TrimOfTrimmed("Array4");
    TrimOfTrimmed("a");
    TrimOfTrimmed("b");
    var sDefs := types["S"].defs;
    assert RecordFields(sDefs) == [("a", "uint8"), ("b", "Array4")] by {
      assert RecordField(sDefs, 0) == ("a", "uint8");
      assert RecordField(sDefs, 1) == ("b", "Array4");
    }
    assert MapSeq(sDefs, EntryTypeName) == ["uint8", "Array4"];
  }

  lemma NestedRecordPlan(types: Catalog)
    requires HasNestedTypes(types)
    ensures "S" in AdtPlans(types)
    ensures AdtPlans(types)["S"] ==
      Plan(["uint8", "Array4"], Some(AppRecordNode(types, "S", [("a", "uint8"), ("b", "Array4")])))
  {
    NestedRecordPlanOf(types);
    AdtPlansCover(types, "S");
  }

  /** The plans of the nested example: uint8 a leaf, Array4 over uint8, S
      over both. */
  ghost predicate NestedPlans<N>(plans: Plans<N>, prim: N, arr: N, rec: N) {
    && "uint8" in plans && plans["uint8"] == Plan([], Some(prim))
    && "Array4" in plans && plans["Array4"] == Plan(["uint8"], Some(arr))
    && "S" in plans && plans["S"] == Plan(["uint8", "Array4"], Some(rec))
  }

  /** While S is being resolved, uint8 is emitted on its own. */
  lemma NestedWalkLeaf<N>(plans: Plans<N>, prim: N, arr: N, rec: N)
    requires NestedPlans(plans, prim, arr, rec)
    ensures Resolve(plans, "uint8", {"S"}, {}) == Run(Done, {"uint8"}, ["uint8"], [prim])
  {
    assert ResolveDeps(plans, "uint8", {"S"}, 0, {}) == Run(Done, {}, [], []);
    assert {} + {"uint8"} == {"uint8"};
  }

  /** Then Array4 is emitted, its uint8 already created. */
  lemma NestedWalkArray<N>(plans: Plans<N>, prim: N, arr: N, rec: N)
    requires NestedPlans(plans, prim, arr, rec)
    ensures Resolve(plans, "Array4", {"S"}, {"uint8"}) == Run(Done, {"uint8", "Array4"}, ["Array4"], [arr])
  {
    ResolveDepsSingle(plans, "Array4", {"S"}, {"uint8"});
    assert Resolve(plans, "uint8", {"S"} + {"Array4"}, {"uint8"}) == Run(Done, {"uint8"}, [], []);
    assert {"uint8"} + {"Array4"} == {"uint8", "Array4"};
  }

  /** The dependencies of S, in order: uint8, then Array4. */
  lemma NestedWalkDeps<N>(plans: Plans<N>, prim: N, arr: N, rec: N)
    requires NestedPlans(plans, prim, arr, rec)
    ensures ResolveDeps(plans, "S", {}, 0, {}) == Run(Done, {"uint8", "Array4"}, ["uint8", "Array4"], [prim, arr])
  {
    assert {} + {"S"} == {"S"};
    NestedWalkLeaf(plans, prim, arr, rec);
    NestedWalkLastDep(plans, prim, arr, rec);
    ResolveDepsStep(plans, "S", {}, 0, {});
  }

  /** The second dependency of S, once uint8 exists: Array4 alone. */
  lemma NestedWalkLastDep<N>(plans: Plans<N>, prim: N, arr: N, rec: N)
    requires NestedPlans(plans, prim, arr, rec)
    ensures ResolveDeps(plans, "S", {}, 1, {"uint8"}) == Run(Done, {"uint8", "Array4"}, ["Array4"], [arr])
  {
    assert {} + {"S"} == {"S"};
    NestedWalkArray(plans, prim, arr, rec);
    assert ResolveDeps(plans, "S", {}, 2, {"uint8", "Array4"}) == Run(Done, {"uint8", "Array4"}, [], []);
    ResolveDepsStep(plans, "S", {}, 1, {"uint8"});
  }

  /** Walking S over any plans of that shape. */
  lemma NestedWalk<N>(plans: Plans<N>, prim: N, arr: N, rec: N)
    requires NestedPlans(plans, prim, arr, rec)
    ensures ResolveAll(plans, ["S"], 0, {}) == Run(Done, {"uint8", "Array4", "S"}, ["uint8", "Array4", "S"], [prim, arr, rec])
  {
    NestedWalkDeps(plans, prim, arr, rec);
    var r := Resolve(plans, "S", {}, {});
    assert r == Run(Done, {"uint8", "Array4"} + {"S"}, ["uint8", "Array4"] + ["S"], [prim, arr] + [rec]);
    assert {"uint8", "Array4"} + {"S"} == {"uint8", "Array4", "S"};
    ResolveAllStep(plans, ["S"], 0, {});
    assert ResolveAll(plans, ["S"], 1, r.created) == Run(Done, r.created, [], []);
  }

  /** In such a catalog, needing only S emits uint8, then Array4, then S: a
      primitive, an array of four uint8 and a record whose elements refer to
      both. */
  lemma NestedTypesOrder(types: Catalog)
    requires HasNestedTypes(types)
    ensures var r := AdtPass(types, ["S"]);
      && r.outcome == Done
      && r.created == {"uint8", "Array4", "S"}
      && r.emitted == ["uint8", "Array4", "S"]
      && r.nodes == [AppPrimitive("uint8"), AppArrayNode("Array4", "uint8", 4),
                     AppRecordNode(types, "S", [("a", "uint8"), ("b", "Array4")])]
  {
    NestedPrimitivePlan(types);
    NestedArrayPlan(types);
    NestedRecordPlan(types);
    NestedWalk(AdtPlans(types), AppPrimitive("uint8"), AppArrayNode("Array4", "uint8", 4),
      AppRecordNode(types, "S", [("a", "uint8"), ("b", "Array4")]));
  }

  /** A catalog where struct A { b: B } and struct B { a: A } refer to each
      other. */
  predicate HasCyclicTypes(types: Catalog) {
    && "A" in types && types["A"] == TypeDef("struct", [Field("b", "B")])
    && "B" in types && types["B"] == TypeDef("struct", [Field("a", "A")])
  }

  lemma CyclicPlans(types: Catalog)
    requires HasCyclicTypes(types)
    ensures var plans := AdtPlans(types);
      "A" in plans && plans["A"].deps == ["B"] && "B" in plans && plans["B"].deps == ["A"]
  {
    TrimOfTrimmed("A");
    TrimOfTrimmed("B");
    AdtPlansCover(types, "A");
    AdtPlansCover(types, "B");
    assert MapSeq(types["A"].defs, EntryTypeName) == ["B"];
    assert MapSeq(types["B"].defs, EntryTypeName) == ["A"];
  }

  /** Walking A over any plans where A and B depend on each other. */
  lemma CyclicWalk<N>(plans: Plans<N>)
    requires "A" in plans && plans["A"].deps == ["B"] && "B" in plans && plans["B"].deps == ["A"]
    ensures ResolveAll(plans, ["A"], 0, {}) == Run(CycleError("A", {"A", "B"}), {}, [], [])
  {
    assert {} + {"A"} == {"A"} && {"A"} + {"B"} == {"A", "B"};
    assert Resolve(plans, "A", {"A", "B"}, {}) == Run(CycleError("A", {"A", "B"}), {}, [], []);
    ResolveDepsSingle(plans, "B", {"A"}, {});
    assert Resolve(plans, "B", {"A"}, {}) == Run(CycleError("A", {"A", "B"}), {}, [], []);
    ResolveDepsSingle(plans, "A", {}, {});
    assert Resolve(plans, "A", {}, {}) == Run(CycleError("A", {"A", "B"}), {}, [], []);
    ResolveAllStep(plans, ["A"], 0, {});
  }

  /** Needing A raises the cycle error on A with path {A, B} and appends no
      node for either. */
  lemma CyclicTypesFail(types: Catalog)
    requires HasCyclicTypes(types)
    ensures AdtPass(types, ["A"]) == Run(CycleError("A", {"A", "B"}), {}, [], [])
  {
    CyclicPlans(types);
    CyclicWalk(AdtPlans(types));
  }

  // ---------------------------------------------------------------------------
  // The pass, run

  /** The application-data-type half of `generate`: a fresh memo set, the
      loop over the needed names, and the nodes appended to the package. */
  method CreateApplicationTypes(types: Catalog, names: seq<string>) returns (outcome: Outcome, pkg: seq<AdtNode>)
    ensures outcome == AdtPass(types, names).outcome
    ensures pkg == AdtPass(types, names).nodes
  {
    var resolver := new Resolver(AdtPlans(types));
    outcome := resolver.CreateAll(names);
    pkg := resolver.pkg;
  }
}
