/** The dependency walk both type passes of the generator perform.

    Once the catalog is read, what resolving a name does is fixed: resolve a
    list of names it depends on, in order, then append at most one node for
    it to the package and mark it created. A Plan records exactly that, and
    the walk below is the recursion of `create_adt_recursive` (with its
    visiting path) and of `_create_and_add_type` (without one) over plans.
    The properties proved here — each name emitted at most once, every
    dependency emitted before its dependent, no cycle error on an acyclic
    graph, a second run emits nothing, the two walks agree — hold for both
    passes. */
module TypeGraph {
  import opened Wrappers
  import opened OrderedMaps

  /** Resolve deps in order, then append node (if any) and mark the name created. */
  datatype Plan<N> = Plan(deps: seq<string>, node: Option<N>)

  type Plans<N> = map<string, Plan<N>>

  datatype Outcome =
    | Done
      // the ValueError raised for a name met again on its own visiting path
    | CycleError(name: string, path: set<string>)
      // a walk without a path check re-entering a name on its own path: the
      // source recurses without bound there
    | EndlessRecursion(name: string)

  /** What one walk did: its outcome, the memo set afterwards, the names
      whose nodes it appended and those nodes, in order. */
  datatype Run<N> = Run(outcome: Outcome, created: set<string>, emitted: seq<string>, nodes: seq<N>)

  /** A name that has a node of its own to emit. */
  predicate Emits<N>(plans: Plans<N>, t: string) {
    t in plans && plans[t].node.Some?
  }

  /** Adding a planned name to the path shrinks the set of planned names still
      off the path; this is what makes the walk terminate. */
  lemma PathShrinks(keys: set<string>, visiting: set<string>, t: string)
    requires t in keys && t !in visiting
    ensures |keys - (visiting + {t})| < |keys - visiting|
  {
    assert keys - (visiting + {t}) == (keys - visiting) - {t};
  }

  // ---------------------------------------------------------------------------
  // The walk with a visiting path (application data types)

  /** Resolving t with the given path and memo set. A name on the path is a
      cycle; a created name, or one without a plan, is done at once. */
  function Resolve<N>(plans: Plans<N>, t: string, visiting: set<string>, created: set<string>): Run<N>
    decreases |plans.Keys - visiting|, 1, 0
  {
    if t in visiting then Run(CycleError(t, visiting), created, [], [])
    else if t in created then Run(Done, created, [], [])
    else if t !in plans then Run(Done, created, [], [])
    else
      var sub := ResolveDeps(plans, t, visiting, 0, created);
      if !sub.outcome.Done? || plans[t].node.None? then sub
      else Run(Done, sub.created + {t}, sub.emitted + [t], sub.nodes + [plans[t].node.value])
  }

  /** The dependencies of t from index i on, each resolved with t on the
      path; the first failure stops the walk. */
  function ResolveDeps<N>(plans: Plans<N>, t: string, visiting: set<string>, i: nat, created: set<string>): Run<N>
    requires t in plans && t !in visiting && i <= |plans[t].deps|
    decreases |plans.Keys - visiting|, 0, |plans[t].deps| - i
  {
    if i == |plans[t].deps| then Run(Done, created, [], [])
    else
      PathShrinks(plans.Keys, visiting, t);
      var first := Resolve(plans, plans[t].deps[i], visiting + {t}, created);
      if !first.outcome.Done? then first
      else
        var rest := ResolveDeps(plans, t, visiting, i + 1, first.created);
        Run(rest.outcome, rest.created, first.emitted + rest.emitted, first.nodes + rest.nodes)
  }

  /** The names from index i on, each in turn from an empty path, sharing
      the memo set; the first failure stops the loop. */
  function ResolveAll<N>(plans: Plans<N>, names: seq<string>, i: nat, created: set<string>): Run<N>
    requires i <= |names|
    decreases |names| - i
  {
    if i == |names| then Run(Done, created, [], [])
    else
      var first := Resolve(plans, names[i], {}, created);
      if !first.outcome.Done? then first
      else
        var rest := ResolveAll(plans, names, i + 1, first.created);
        Run(rest.outcome, rest.created, first.emitted + rest.emitted, first.nodes + rest.nodes)
  }

  /** The dependency loop of a name with exactly one dependency is the
      resolution of that dependency. */
  lemma ResolveDepsSingle<N>(plans: Plans<N>, t: string, visiting: set<string>, created: set<string>)
    requires t in plans && t !in visiting && |plans[t].deps| == 1
    ensures var first := Resolve(plans, plans[t].deps[0], visiting + {t}, created);
      ResolveDeps(plans, t, visiting, 0, created) == first
  {
    var first := Resolve(plans, plans[t].deps[0], visiting + {t}, created);
    if first.outcome.Done? {
      assert first.emitted + [] == first.emitted && first.nodes + [] == first.nodes;
    }
  }

  // ---------------------------------------------------------------------------
  // The walk without a path check (implementation data types)

  /** The same walk with the memo check first and no cycle check. path is
      the chain of names being resolved; it only serves to say where the
      source would recurse for ever. */
  function ResolveUnchecked<N>(plans: Plans<N>, t: string, path: set<string>, created: set<string>): Run<N>
    decreases |plans.Keys - path|, 1, 0
  {
    if t in created then Run(Done, created, [], [])
    else if t !in plans then Run(Done, created, [], [])
    else if t in path then Run(EndlessRecursion(t), created, [], [])
    else
      var sub := ResolveUncheckedDeps(plans, t, path, 0, created);
      if !sub.outcome.Done? || plans[t].node.None? then sub
      else Run(Done, sub.created + {t}, sub.emitted + [t], sub.nodes + [plans[t].node.value])
  }

  function ResolveUncheckedDeps<N>(plans: Plans<N>, t: string, path: set<string>, i: nat, created: set<string>): Run<N>
    requires t in plans && t !in path && i <= |plans[t].deps|
    decreases |plans.Keys - path|, 0, |plans[t].deps| - i
  {
    if i == |plans[t].deps| then Run(Done, created, [], [])
    else
      PathShrinks(plans.Keys, path, t);
      var first := ResolveUnchecked(plans, plans[t].deps[i], path + {t}, created);
      if !first.outcome.Done? then first
      else
        var rest := ResolveUncheckedDeps(plans, t, path, i + 1, first.created);
        Run(rest.outcome, rest.created, first.emitted + rest.emitted, first.nodes + rest.nodes)
  }

  /** The names from index i on, each walked in turn from an empty path.
      The source skips a name already created before walking it; the walk
      makes the same check first, so the guard changes nothing here. */
  function ResolveAllUnchecked<N>(plans: Plans<N>, names: seq<string>, i: nat, created: set<string>): Run<N>
    requires i <= |names|
    decreases |names| - i
  {
    if i == |names| then Run(Done, created, [], [])
    else
      var first := ResolveUnchecked(plans, names[i], {}, created);
      if !first.outcome.Done? then first
      else
        var rest := ResolveAllUnchecked(plans, names, i + 1, first.created);
        Run(rest.outcome, rest.created, first.emitted + rest.emitted, first.nodes + rest.nodes)
  }

  // ---------------------------------------------------------------------------
  // Each name is emitted at most once

  /** A run from memo set created, on a path visiting, appended only names
      that have a node, were not created before and are not on the path,
      each once, marked exactly those, and appended their nodes in order. */
  ghost predicate FreshRun<N>(plans: Plans<N>, visiting: set<string>, created: set<string>, r: Run<N>) {
    && NoDuplicates(r.emitted)
    && (forall k :: k in r.emitted ==> Emits(plans, k) && k !in created && k !in visiting)
    && r.created == created + (set k | k in r.emitted)
    && |r.nodes| == |r.emitted|
    && (forall j :: 0 <= j < |r.emitted| ==> Emits(plans, r.emitted[j]) && r.nodes[j] == plans[r.emitted[j]].node.value)
  }

  lemma NoDuplicatesAppend<T>(a: seq<T>, b: seq<T>)
    requires NoDuplicates(a) && NoDuplicates(b)
    requires forall x :: x in a ==> x !in b
    ensures NoDuplicates(a + b)
  {
    forall i, j | 0 <= i < j < |a + b| ensures (a + b)[i] != (a + b)[j] {
      if j < |a| {
      } else if i >= |a| {
        assert (a + b)[i] == b[i - |a|] && (a + b)[j] == b[j - |a|];
      } else {
        assert (a + b)[i] in a && (a + b)[j] in b;
      }
    }
  }

  /** A fresh run followed by a fresh run from where it left off is fresh. */
  lemma FreshConcat<N>(plans: Plans<N>, visiting: set<string>, created: set<string>, first: Run<N>, rest: Run<N>)
    requires FreshRun(plans, visiting, created, first)
    requires FreshRun(plans, visiting, first.created, rest)
    ensures FreshRun(plans, visiting, created, Run(rest.outcome, rest.created, first.emitted + rest.emitted, first.nodes + rest.nodes))
  {
    NoDuplicatesAppend(first.emitted, rest.emitted);
    var all := first.emitted + rest.emitted;
    assert (set k | k in all) == (set k | k in first.emitted) + (set k | k in rest.emitted);
  }

  lemma FreshOnPath<N>(plans: Plans<N>, visiting: set<string>, t: string, created: set<string>, r: Run<N>)
    requires FreshRun(plans, visiting + {t}, created, r)
    ensures FreshRun(plans, visiting, created, r)
    ensures t !in r.emitted
  {
  }

  /** Resolving a name never appends a node twice, never appends a node
      created before, and marks exactly what it appends. */
  lemma {:induction false} ResolveFresh<N>(plans: Plans<N>, t: string, visiting: set<string>, created: set<string>)
    ensures FreshRun(plans, visiting, created, Resolve(plans, t, visiting, created))
    decreases |plans.Keys - visiting|, 1, 0
  {
    if t !in visiting && t !in created && t in plans {
      var sub := ResolveDeps(plans, t, visiting, 0, created);
      ResolveDepsFresh(plans, t, visiting, 0, created);
      if sub.outcome.Done? && plans[t].node.Some? {
        var r := Run(Done, sub.created + {t}, sub.emitted + [t], sub.nodes + [plans[t].node.value]);
        NoDuplicatesAppend(sub.emitted, [t]);
        assert (set k | k in r.emitted) == (set k | k in sub.emitted) + {t};
      }
    }
  }

  lemma {:induction false} ResolveDepsFresh<N>(plans: Plans<N>, t: string, visiting: set<string>, i: nat, created: set<string>)
    requires t in plans && t !in visiting && i <= |plans[t].deps|
    ensures FreshRun(plans, visiting, created, ResolveDeps(plans, t, visiting, i, created))
    ensures t !in ResolveDeps(plans, t, visiting, i, created).emitted
    decreases |plans.Keys - visiting|, 0, |plans[t].deps| - i
  {
    if i < |plans[t].deps| {
      PathShrinks(plans.Keys, visiting, t);
      var first := Resolve(plans, plans[t].deps[i], visiting + {t}, created);
      ResolveFresh(plans, plans[t].deps[i], visiting + {t}, created);
      FreshOnPath(plans, visiting, t, created, first);
      if first.outcome.Done? {
        var rest := ResolveDeps(plans, t, visiting, i + 1, first.created);
        ResolveDepsFresh(plans, t, visiting, i + 1, first.created);
        FreshConcat(plans, visiting, created, first, rest);
      }
    }
  }

  /** The whole loop appends each name at most once. */
  lemma {:induction false} ResolveAllFresh<N>(plans: Plans<N>, names: seq<string>, i: nat, created: set<string>)
    requires i <= |names|
    ensures FreshRun(plans, {}, created, ResolveAll(plans, names, i, created))
    decreases |names| - i
  {
    if i < |names| {
      var first := Resolve(plans, names[i], {}, created);
      ResolveFresh(plans, names[i], {}, created);
      if first.outcome.Done? {
        ResolveAllFresh(plans, names, i + 1, first.created);
        FreshConcat(plans, {}, created, first, ResolveAll(plans, names, i + 1, first.created));
      }
    }
  }

  /** The checked walk fails only with the cycle error. */
  lemma {:induction false} ResolveOnlyCycles<N>(plans: Plans<N>, t: string, visiting: set<string>, created: set<string>)
    ensures !Resolve(plans, t, visiting, created).outcome.EndlessRecursion?
    decreases |plans.Keys - visiting|, 1, 0
  {
    if t !in visiting && t !in created && t in plans {
      ResolveDepsOnlyCycles(plans, t, visiting, 0, created);
    }
  }

  lemma {:induction false} ResolveDepsOnlyCycles<N>(plans: Plans<N>, t: string, visiting: set<string>, i: nat, created: set<string>)
    requires t in plans && t !in visiting && i <= |plans[t].deps|
    ensures !ResolveDeps(plans, t, visiting, i, created).outcome.EndlessRecursion?
    decreases |plans.Keys - visiting|, 0, |plans[t].deps| - i
  {
    if i < |plans[t].deps| {
      PathShrinks(plans.Keys, visiting, t);
      var first := Resolve(plans, plans[t].deps[i], visiting + {t}, created);
      ResolveOnlyCycles(plans, plans[t].deps[i], visiting + {t}, created);
      if first.outcome.Done? {
        ResolveDepsOnlyCycles(plans, t, visiting, i + 1, first.created);
      }
    }
  }

  lemma {:induction false} ResolveAllOnlyCycles<N>(plans: Plans<N>, names: seq<string>, i: nat, created: set<string>)
    requires i <= |names|
    ensures !ResolveAll(plans, names, i, created).outcome.EndlessRecursion?
    decreases |names| - i
  {
    if i < |names| {
      var first := Resolve(plans, names[i], {}, created);
      ResolveOnlyCycles(plans, names[i], {}, created);
      if first.outcome.Done? {
        ResolveAllOnlyCycles(plans, names, i + 1, first.created);
      }
    }
  }

  /** The memo set after a resolution: what it started from and what it
      emitted. */
  lemma ResolveMarks<N>(plans: Plans<N>, t: string, visiting: set<string>, created: set<string>)
    ensures var r := Resolve(plans, t, visiting, created);
      r.created == created + (set k | k in r.emitted)
  {
    ResolveFresh(plans, t, visiting, created);
  }

  lemma ResolveDepsMarks<N>(plans: Plans<N>, t: string, visiting: set<string>, i: nat, created: set<string>)
    requires t in plans && t !in visiting && i <= |plans[t].deps|
    ensures var r := ResolveDeps(plans, t, visiting, i, created);
      r.created == created + (set k | k in r.emitted)
  {
    ResolveDepsFresh(plans, t, visiting, i, created);
  }

  lemma ResolveAllMarks<N>(plans: Plans<N>, names: seq<string>, i: nat, created: set<string>)
    requires i <= |names|
    ensures var r := ResolveAll(plans, names, i, created);
      r.created == created + (set k | k in r.emitted)
  {
    ResolveAllFresh(plans, names, i, created);
  }

  // ---------------------------------------------------------------------------
  // Dependencies are emitted before their dependents

  /** Every appended name comes after each of its dependencies that has a
      node, unless that dependency was created before the run. */
  ghost predicate DepsFirst<N>(plans: Plans<N>, created: set<string>, emitted: seq<string>) {
    forall j, d :: 0 <= j < |emitted| && emitted[j] in plans && d in plans[emitted[j]].deps && Emits(plans, d) ==>
      d in created || d in emitted[..j]
  }

  lemma DepsFirstConcat<N>(plans: Plans<N>, created: set<string>, a: seq<string>, b: seq<string>)
    requires DepsFirst(plans, created, a)
    requires DepsFirst(plans, created + (set k | k in a), b)
    ensures DepsFirst(plans, created, a + b)
  {
    forall j, d | 0 <= j < |a + b| && (a + b)[j] in plans && d in plans[(a + b)[j]].deps && Emits(plans, d)
      ensures d in created || d in (a + b)[..j]
    {
      if j < |a| {
        assert (a + b)[..j] == a[..j];
      } else {
        assert (a + b)[j] == b[j - |a|];
        assert (a + b)[..j] == a + b[..j - |a|];
      }
    }
  }

  /** A successful resolution appends dependencies before dependents, and
      leaves t created whenever t has a node. */
  lemma {:induction false} ResolveDepsFirst<N>(plans: Plans<N>, t: string, visiting: set<string>, created: set<string>)
    requires Resolve(plans, t, visiting, created).outcome.Done?
    ensures DepsFirst(plans, created, Resolve(plans, t, visiting, created).emitted)
    ensures Emits(plans, t) ==> t in Resolve(plans, t, visiting, created).created
    decreases |plans.Keys - visiting|, 1, 0
  {
    if t !in created && t in plans {
      var sub := ResolveDeps(plans, t, visiting, 0, created);
      ResolveDepsDepsFirst(plans, t, visiting, 0, created);
      ResolveDepsMarks(plans, t, visiting, 0, created);
      if plans[t].node.Some? {
        var e := sub.emitted + [t];
        forall d | d in plans[t].deps && Emits(plans, d) ensures d in created || d in e[..|sub.emitted|] {
          var k :| 0 <= k < |plans[t].deps| && plans[t].deps[k] == d;
          assert e[..|sub.emitted|] == sub.emitted;
        }
        DepsFirstConcat(plans, created, sub.emitted, [t]);
      }
    }
  }

  lemma {:induction false} ResolveDepsDepsFirst<N>(plans: Plans<N>, t: string, visiting: set<string>, i: nat, created: set<string>)
    requires t in plans && t !in visiting && i <= |plans[t].deps|
    requires ResolveDeps(plans, t, visiting, i, created).outcome.Done?
    ensures DepsFirst(plans, created, ResolveDeps(plans, t, visiting, i, created).emitted)
    ensures forall k :: i <= k < |plans[t].deps| && Emits(plans, plans[t].deps[k]) ==>
      plans[t].deps[k] in ResolveDeps(plans, t, visiting, i, created).created
    decreases |plans.Keys - visiting|, 0, |plans[t].deps| - i
  {
    if i < |plans[t].deps| {
      PathShrinks(plans.Keys, visiting, t);
      var first := Resolve(plans, plans[t].deps[i], visiting + {t}, created);
      var rest := ResolveDeps(plans, t, visiting, i + 1, first.created);
      ResolveDepsFirst(plans, plans[t].deps[i], visiting + {t}, created);
      ResolveMarks(plans, plans[t].deps[i], visiting + {t}, created);
      ResolveDepsDepsFirst(plans, t, visiting, i + 1, first.created);
      ResolveDepsMarks(plans, t, visiting, i + 1, first.created);
      DepsFirstConcat(plans, created, first.emitted, rest.emitted);
      assert first.created <= rest.created;
    }
  }

  /** Over the whole loop, dependencies are appended before dependents. */
  lemma {:induction false} ResolveAllDepsFirst<N>(plans: Plans<N>, names: seq<string>, i: nat, created: set<string>)
    requires i <= |names|
    requires ResolveAll(plans, names, i, created).outcome.Done?
    ensures DepsFirst(plans, created, ResolveAll(plans, names, i, created).emitted)
    ensures forall k :: i <= k < |names| && Emits(plans, names[k]) ==> names[k] in ResolveAll(plans, names, i, created).created
    decreases |names| - i
  {
    if i < |names| {
      var first := Resolve(plans, names[i], {}, created);
      var rest := ResolveAll(plans, names, i + 1, first.created);
      ResolveDepsFirst(plans, names[i], {}, created);
      ResolveMarks(plans, names[i], {}, created);
      ResolveAllDepsFirst(plans, names, i + 1, first.created);
      ResolveAllMarks(plans, names, i + 1, first.created);
      DepsFirstConcat(plans, created, first.emitted, rest.emitted);
      assert first.created <= rest.created;
    }
  }

  // ---------------------------------------------------------------------------
  // Cycles

  /** The dependency graph is acyclic: rank strictly decreases along every
      dependency that has a plan. */
  ghost predicate Ranked<N>(plans: Plans<N>, rank: map<string, nat>) {
    forall k :: k in plans ==>
      && k in rank
      && forall d :: d in plans[k].deps && d in plans ==> d in rank && rank[d] < rank[k]
  }

  /** On an acyclic graph the walk never reports a cycle: every name on the
      path outranks the name being resolved. */
  lemma {:induction false} AcyclicResolves<N>(plans: Plans<N>, rank: map<string, nat>, t: string, visiting: set<string>, created: set<string>)
    requires Ranked(plans, rank)
    requires visiting <= plans.Keys
    requires t in plans ==> forall v :: v in visiting ==> rank[t] < rank[v]
    ensures Resolve(plans, t, visiting, created).outcome.Done?
    decreases |plans.Keys - visiting|, 1, 0
  {
    if t !in visiting && t !in created && t in plans {
      AcyclicResolvesDeps(plans, rank, t, visiting, 0, created);
    }
  }

  lemma {:induction false} AcyclicResolvesDeps<N>(plans: Plans<N>, rank: map<string, nat>, t: string, visiting: set<string>, i: nat, created: set<string>)
    requires Ranked(plans, rank)
    requires visiting <= plans.Keys
    requires t in plans && t !in visiting && i <= |plans[t].deps|
    requires forall v :: v in visiting ==> rank[t] < rank[v]
    ensures ResolveDeps(plans, t, visiting, i, created).outcome.Done?
    decreases |plans.Keys - visiting|, 0, |plans[t].deps| - i
  {
    if i < |plans[t].deps| {
      PathShrinks(plans.Keys, visiting, t);
      var d := plans[t].deps[i];
      AcyclicResolves(plans, rank, d, visiting + {t}, created);
      var first := Resolve(plans, d, visiting + {t}, created);
      AcyclicResolvesDeps(plans, rank, t, visiting, i + 1, first.created);
    }
  }

  /** On an acyclic graph the whole loop succeeds. */
  lemma {:induction false} AcyclicResolvesAll<N>(plans: Plans<N>, rank: map<string, nat>, names: seq<string>, i: nat, created: set<string>)
    requires Ranked(plans, rank)
    requires i <= |names|
    ensures ResolveAll(plans, names, i, created).outcome.Done?
    decreases |names| - i
  {
    if i < |names| {
      AcyclicResolves(plans, rank, names[i], {}, created);
      AcyclicResolvesAll(plans, rank, names, i + 1, Resolve(plans, names[i], {}, created).created);
    }
  }

  /** A reported cycle names a name on the reported path, and the path
      extends the one the walk started from. */
  lemma {:induction false} CycleOnPath<N>(plans: Plans<N>, t: string, visiting: set<string>, created: set<string>)
    requires Resolve(plans, t, visiting, created).outcome.CycleError?
    ensures var o := Resolve(plans, t, visiting, created).outcome;
      o.name in o.path && visiting <= o.path
    decreases |plans.Keys - visiting|, 1, 0
  {
    if t !in visiting && t !in created && t in plans {
      CycleOnPathDeps(plans, t, visiting, 0, created);
    }
  }

  lemma {:induction false} CycleOnPathDeps<N>(plans: Plans<N>, t: string, visiting: set<string>, i: nat, created: set<string>)
    requires t in plans && t !in visiting && i <= |plans[t].deps|
    requires ResolveDeps(plans, t, visiting, i, created).outcome.CycleError?
    ensures var o := ResolveDeps(plans, t, visiting, i, created).outcome;
      o.name in o.path && visiting + {t} <= o.path
    decreases |plans.Keys - visiting|, 0, |plans[t].deps| - i
  {
    PathShrinks(plans.Keys, visiting, t);
    var first := Resolve(plans, plans[t].deps[i], visiting + {t}, created);
    if first.outcome.CycleError? {
      CycleOnPath(plans, plans[t].deps[i], visiting + {t}, created);
    } else {
      CycleOnPathDeps(plans, t, visiting, i + 1, first.created);
    }
  }

  // ---------------------------------------------------------------------------
  // A second run emits nothing

  /** Resolving a name again, from any memo set that contains what a
      successful first resolution created, emits nothing and changes nothing. */
  lemma {:induction false} ResolveAgain<N>(plans: Plans<N>, t: string, visiting: set<string>, created: set<string>, later: set<string>)
    requires Resolve(plans, t, visiting, created).outcome.Done?
    requires Resolve(plans, t, visiting, created).created <= later
    ensures Resolve(plans, t, visiting, later) == Run(Done, later, [], [])
    decreases |plans.Keys - visiting|, 1, 0
  {
    if t !in later && t in plans {
      ResolveMarks(plans, t, visiting, created);
      ResolveDepsMarks(plans, t, visiting, 0, created);
      ResolveDepsAgain(plans, t, visiting, 0, created, later);
    }
  }

  lemma {:induction false} ResolveDepsAgain<N>(plans: Plans<N>, t: string, visiting: set<string>, i: nat, created: set<string>, later: set<string>)
    requires t in plans && t !in visiting && i <= |plans[t].deps|
    requires ResolveDeps(plans, t, visiting, i, created).outcome.Done?
    requires ResolveDeps(plans, t, visiting, i, created).created <= later
    ensures ResolveDeps(plans, t, visiting, i, later) == Run(Done, later, [], [])
    decreases |plans.Keys - visiting|, 0, |plans[t].deps| - i
  {
    if i < |plans[t].deps| {
      PathShrinks(plans.Keys, visiting, t);
      var d := plans[t].deps[i];
      var first := Resolve(plans, d, visiting + {t}, created);
      ResolveDepsMarks(plans, t, visiting, i + 1, first.created);
      ResolveAgain(plans, d, visiting + {t}, created, later);
      ResolveDepsAgain(plans, t, visiting, i + 1, first.created, later);
    }
  }

  /** Running the whole loop again from what it created emits nothing. */
  lemma {:induction false} ResolveAllAgain<N>(plans: Plans<N>, names: seq<string>, i: nat, created: set<string>, later: set<string>)
    requires i <= |names|
    requires ResolveAll(plans, names, i, created).outcome.Done?
    requires ResolveAll(plans, names, i, created).created <= later
    ensures ResolveAll(plans, names, i, later) == Run(Done, later, [], [])
    decreases |names| - i
  {
    if i < |names| {
      var first := Resolve(plans, names[i], {}, created);
      ResolveAllMarks(plans, names, i + 1, first.created);
      ResolveAgain(plans, names[i], {}, created, later);
      ResolveAllAgain(plans, names, i + 1, first.created, later);
    }
  }

  // ---------------------------------------------------------------------------
  // The two walks agree

  /** Two plan maps with the same names, the same dependencies and nodes in
      the same places. */
  ghost predicate SameShape<M, N>(p: Plans<M>, q: Plans<N>) {
    && p.Keys == q.Keys
    && forall k :: k in p ==> p[k].deps == q[k].deps && (p[k].node.Some? <==> q[k].node.Some?)
  }

  /** Two runs that end the same way, with the same memo set, having emitted
      the same names (their nodes may differ in kind). */
  predicate SameWalk<M, N>(a: Run<M>, b: Run<N>) {
    a.outcome == b.outcome && a.created == b.created && a.emitted == b.emitted
  }

  /** The walk only looks at the shape of the plans, never at their nodes. */
  lemma {:induction false} SameShapeResolve<M, N>(p: Plans<M>, q: Plans<N>, t: string, visiting: set<string>, created: set<string>)
    requires SameShape(p, q)
    ensures SameWalk(Resolve(p, t, visiting, created), Resolve(q, t, visiting, created))
    decreases |p.Keys - visiting|, 1, 0
  {
    if t !in visiting && t !in created && t in p {
      SameShapeResolveDeps(p, q, t, visiting, 0, created);
    }
  }

  lemma {:induction false} SameShapeResolveDeps<M, N>(p: Plans<M>, q: Plans<N>, t: string, visiting: set<string>, i: nat, created: set<string>)
    requires SameShape(p, q)
    requires t in p && t !in visiting && i <= |p[t].deps|
    ensures SameWalk(ResolveDeps(p, t, visiting, i, created), ResolveDeps(q, t, visiting, i, created))
    decreases |p.Keys - visiting|, 0, |p[t].deps| - i
  {
    if i < |p[t].deps| {
      PathShrinks(p.Keys, visiting, t);
      SameShapeResolve(p, q, p[t].deps[i], visiting + {t}, created);
      SameShapeResolveDeps(p, q, t, visiting, i + 1, Resolve(p, p[t].deps[i], visiting + {t}, created).created);
    }
  }

  lemma {:induction false} SameShapeResolveAll<M, N>(p: Plans<M>, q: Plans<N>, names: seq<string>, i: nat, created: set<string>)
    requires SameShape(p, q)
    requires i <= |names|
    ensures SameWalk(ResolveAll(p, names, i, created), ResolveAll(q, names, i, created))
    decreases |names| - i
  {
    if i < |names| {
      SameShapeResolve(p, q, names[i], {}, created);
      SameShapeResolveAll(p, q, names, i + 1, Resolve(p, names[i], {}, created).created);
    }
  }

  /** Wherever the checked walk succeeds, the walk without a path check does
      exactly the same: the check never fires on a successful walk. */
  lemma {:induction false} UncheckedAgrees<N>(plans: Plans<N>, t: string, visiting: set<string>, created: set<string>)
    requires Resolve(plans, t, visiting, created).outcome.Done?
    ensures ResolveUnchecked(plans, t, visiting, created) == Resolve(plans, t, visiting, created)
    decreases |plans.Keys - visiting|, 1, 0
  {
    if t !in created && t in plans {
      UncheckedAgreesDeps(plans, t, visiting, 0, created);
    }
  }

  lemma {:induction false} UncheckedAgreesDeps<N>(plans: Plans<N>, t: string, visiting: set<string>, i: nat, created: set<string>)
    requires t in plans && t !in visiting && i <= |plans[t].deps|
    requires ResolveDeps(plans, t, visiting, i, created).outcome.Done?
    ensures ResolveUncheckedDeps(plans, t, visiting, i, created) == ResolveDeps(plans, t, visiting, i, created)
    decreases |plans.Keys - visiting|, 0, |plans[t].deps| - i
  {
    if i < |plans[t].deps| {
      PathShrinks(plans.Keys, visiting, t);
      var first := Resolve(plans, plans[t].deps[i], visiting + {t}, created);
      UncheckedAgrees(plans, plans[t].deps[i], visiting + {t}, created);
      UncheckedAgreesDeps(plans, t, visiting, i + 1, first.created);
    }
  }

  /** After a successful checked loop, the unchecked loop over the same names
      (which skips names already created) does the same. */
  lemma {:induction false} UncheckedAgreesAll<N>(plans: Plans<N>, names: seq<string>, i: nat, created: set<string>)
    requires i <= |names|
    requires ResolveAll(plans, names, i, created).outcome.Done?
    ensures ResolveAllUnchecked(plans, names, i, created) == ResolveAll(plans, names, i, created)
    decreases |names| - i
  {
    if i < |names| {
      var first := Resolve(plans, names[i], {}, created);
      UncheckedAgrees(plans, names[i], {}, created);
      UncheckedAgreesAll(plans, names, i + 1, first.created);
    }
  }

  /** What the walk without a path check does where the checked walk
      reports a cycle on a name: it recurses for ever on that name, having
      appended and marked the same names. */
  function AsUnchecked<N>(r: Run<N>): Run<N> {
    match r.outcome
    case CycleError(name, _) => Run(EndlessRecursion(name), r.created, r.emitted, r.nodes)
    case _ => r
  }

  /** A walk marks no name on its path. */
  lemma ResolveAvoids<N>(plans: Plans<N>, t: string, visiting: set<string>, created: set<string>)
    requires visiting !! created
    ensures visiting !! Resolve(plans, t, visiting, created).created
  {
    ResolveFresh(plans, t, visiting, created);
  }

  /** The walk without a path check is the checked walk with each cycle
      error turned into endless recursion on the same name, as long as the
      path holds only planned names none of which is created yet. */
  lemma {:induction false} UncheckedMirrors<N>(plans: Plans<N>, t: string, visiting: set<string>, created: set<string>)
    requires visiting <= plans.Keys && visiting !! created
    ensures ResolveUnchecked(plans, t, visiting, created) == AsUnchecked(Resolve(plans, t, visiting, created))
    decreases |plans.Keys - visiting|, 1, 0
  {
    if Resolve(plans, t, visiting, created).outcome.Done? {
      UncheckedAgrees(plans, t, visiting, created);
    } else if t !in visiting && t !in created && t in plans {
      UncheckedMirrorsDeps(plans, t, visiting, 0, created);
    }
  }

  lemma {:induction false} UncheckedMirrorsDeps<N>(plans: Plans<N>, t: string, visiting: set<string>, i: nat, created: set<string>)
    requires t in plans && t !in visiting && t !in created && i <= |plans[t].deps|
    requires visiting <= plans.Keys && visiting !! created
    ensures ResolveUncheckedDeps(plans, t, visiting, i, created) == AsUnchecked(ResolveDeps(plans, t, visiting, i, created))
    decreases |plans.Keys - visiting|, 0, |plans[t].deps| - i
  {
    if i < |plans[t].deps| {
      PathShrinks(plans.Keys, visiting, t);
      var first := Resolve(plans, plans[t].deps[i], visiting + {t}, created);
      UncheckedMirrors(plans, plans[t].deps[i], visiting + {t}, created);
      if first.outcome.Done? {
        ResolveAvoids(plans, plans[t].deps[i], visiting + {t}, created);
        UncheckedMirrorsDeps(plans, t, visiting, i + 1, first.created);
      }
    }
  }

  /** The loop over the needed names, likewise. */
  lemma {:induction false} UncheckedMirrorsAll<N>(plans: Plans<N>, names: seq<string>, i: nat, created: set<string>)
    requires i <= |names|
    ensures ResolveAllUnchecked(plans, names, i, created) == AsUnchecked(ResolveAll(plans, names, i, created))
    decreases |names| - i
  {
    if i < |names| {
      var first := Resolve(plans, names[i], {}, created);
      UncheckedMirrors(plans, names[i], {}, created);
      UncheckedMirrorsAll(plans, names, i + 1, first.created);
    }
  }

  // ---------------------------------------------------------------------------
  // The resolver

  /** A walk that has appended done so far and will go on as rest ends as
      whole does. */
  ghost predicate Continues<N>(whole: Run<N>, done: seq<N>, rest: Run<N>) {
    whole.outcome == rest.outcome && whole.created == rest.created && whole.nodes == done + rest.nodes
  }

  /** One step of each loop, unfolded. */
  lemma ResolveAllStep<N>(plans: Plans<N>, names: seq<string>, i: nat, created: set<string>)
    requires i < |names|
    ensures var first := Resolve(plans, names[i], {}, created);
      ResolveAll(plans, names, i, created) ==
        if !first.outcome.Done? then first
        else var rest := ResolveAll(plans, names, i + 1, first.created);
          Run(rest.outcome, rest.created, first.emitted + rest.emitted, first.nodes + rest.nodes)
  {
  }

  lemma ResolveDepsStep<N>(plans: Plans<N>, t: string, visiting: set<string>, i: nat, created: set<string>)
    requires t in plans && t !in visiting && i < |plans[t].deps|
    ensures var first := Resolve(plans, plans[t].deps[i], visiting + {t}, created);
      ResolveDeps(plans, t, visiting, i, created) ==
        if !first.outcome.Done? then first
        else var rest := ResolveDeps(plans, t, visiting, i + 1, first.created);
          Run(rest.outcome, rest.created, first.emitted + rest.emitted, first.nodes + rest.nodes)
  {
  }

  lemma ResolveUncheckedDepsStep<N>(plans: Plans<N>, t: string, path: set<string>, i: nat, created: set<string>)
    requires t in plans && t !in path && i < |plans[t].deps|
    ensures var first := ResolveUnchecked(plans, plans[t].deps[i], path + {t}, created);
      ResolveUncheckedDeps(plans, t, path, i, created) ==
        if !first.outcome.Done? then first
        else var rest := ResolveUncheckedDeps(plans, t, path, i + 1, first.created);
          Run(rest.outcome, rest.created, first.emitted + rest.emitted, first.nodes + rest.nodes)
  {
  }

  lemma ResolveAllUncheckedStep<N>(plans: Plans<N>, names: seq<string>, i: nat, created: set<string>)
    requires i < |names|
    ensures var first := ResolveUnchecked(plans, names[i], {}, created);
      ResolveAllUnchecked(plans, names, i, created) ==
        if !first.outcome.Done? then first
        else var rest := ResolveAllUnchecked(plans, names, i + 1, first.created);
          Run(rest.outcome, rest.created, first.emitted + rest.emitted, first.nodes + rest.nodes)
  {
  }

  /** One iteration of the dependency loop: the walk over the remaining
      dependencies either stops at the i-th, or continues after it with its
      nodes appended. */
  lemma DepsContinue<N>(plans: Plans<N>, t: string, visiting: set<string>, i: nat, created: set<string>, whole: Run<N>, done: seq<N>)
    requires t in plans && t !in visiting && i < |plans[t].deps|
    requires Continues(whole, done, ResolveDeps(plans, t, visiting, i, created))
    ensures var first := Resolve(plans, plans[t].deps[i], visiting + {t}, created);
      if first.outcome.Done? then Continues(whole, done + first.nodes, ResolveDeps(plans, t, visiting, i + 1, first.created))
      else whole.outcome == first.outcome && whole.created == first.created && whole.nodes == done + first.nodes
  {
    ResolveDepsStep(plans, t, visiting, i, created);
    var first := Resolve(plans, plans[t].deps[i], visiting + {t}, created);
    if first.outcome.Done? {
      var rest := ResolveDeps(plans, t, visiting, i + 1, first.created);
      assert done + (first.nodes + rest.nodes) == (done + first.nodes) + rest.nodes;
    }
  }

  lemma UncheckedDepsContinue<N>(plans: Plans<N>, t: string, path: set<string>, i: nat, created: set<string>, whole: Run<N>, done: seq<N>)
    requires t in plans && t !in path && i < |plans[t].deps|
    requires Continues(whole, done, ResolveUncheckedDeps(plans, t, path, i, created))
    ensures var first := ResolveUnchecked(plans, plans[t].deps[i], path + {t}, created);
      if first.outcome.Done? then Continues(whole, done + first.nodes, ResolveUncheckedDeps(plans, t, path, i + 1, first.created))
      else whole.outcome == first.outcome && whole.created == first.created && whole.nodes == done + first.nodes
  {
    ResolveUncheckedDepsStep(plans, t, path, i, created);
    var first := ResolveUnchecked(plans, plans[t].deps[i], path + {t}, created);
    if first.outcome.Done? {
      var rest := ResolveUncheckedDeps(plans, t, path, i + 1, first.created);
      assert done + (first.nodes + rest.nodes) == (done + first.nodes) + rest.nodes;
    }
  }

  lemma AllContinue<N>(plans: Plans<N>, names: seq<string>, i: nat, created: set<string>, whole: Run<N>, done: seq<N>)
    requires i < |names|
    requires Continues(whole, done, ResolveAll(plans, names, i, created))
    ensures var first := Resolve(plans, names[i], {}, created);
      if first.outcome.Done? then Continues(whole, done + first.nodes, ResolveAll(plans, names, i + 1, first.created))
      else whole.outcome == first.outcome && whole.created == first.created && whole.nodes == done + first.nodes
  {
    ResolveAllStep(plans, names, i, created);
    var first := Resolve(plans, names[i], {}, created);
    if first.outcome.Done? {
      var rest := ResolveAll(plans, names, i + 1, first.created);
      assert done + (first.nodes + rest.nodes) == (done + first.nodes) + rest.nodes;
    }
  }

  lemma AllUncheckedContinue<N>(plans: Plans<N>, names: seq<string>, i: nat, created: set<string>, whole: Run<N>, done: seq<N>)
    requires i < |names|
    requires Continues(whole, done, ResolveAllUnchecked(plans, names, i, created))
    ensures var first := ResolveUnchecked(plans, names[i], {}, created);
      if first.outcome.Done? then Continues(whole, done + first.nodes, ResolveAllUnchecked(plans, names, i + 1, first.created))
      else whole.outcome == first.outcome && whole.created == first.created && whole.nodes == done + first.nodes
  {
    ResolveAllUncheckedStep(plans, names, i, created);
    var first := ResolveUnchecked(plans, names[i], {}, created);
    if first.outcome.Done? {
      var rest := ResolveAllUnchecked(plans, names, i + 1, first.created);
      assert done + (first.nodes + rest.nodes) == (done + first.nodes) + rest.nodes;
    }
  }

  /** A pass's state: the plans it walks, the memo set (`created_adt` or
      `created_idt_types`) and the package it appends to. The visiting set
      is passed down by value: the source adds the name before recursing and
      discards it on every exit, so each call sees exactly its own path. */
  class Resolver<N> {
    const plans: Plans<N>
    var created: set<string>
    var pkg: seq<N>

    constructor(plans: Plans<N>)
      ensures this.plans == plans && created == {} && pkg == []
    {
      this.plans := plans;
      created := {};
      pkg := [];
    }

    /** The recursive ADT creation of t: a name on the path is a cycle,
        a created or unplanned name is done; otherwise resolve the
        dependencies with t on the path, then append t's node and mark it. */
    method Create(t: string, visiting: set<string>) returns (outcome: Outcome)
      modifies this
      decreases |plans.Keys - visiting|, 1
      ensures var run := Resolve(plans, t, visiting, old(created));
        outcome == run.outcome && created == run.created && pkg == old(pkg) + run.nodes
    {
      if t in visiting {
        return CycleError(t, visiting);
      }
      if t in created {
        return Done;
      }
      if t !in plans {
        return Done;
      }
      PathShrinks(plans.Keys, visiting, t);
      outcome := CreateDeps(t, visiting);
      if outcome.Done? && plans[t].node.Some? {
        pkg := pkg + [plans[t].node.value];
        created := created + {t};
      }
    }

    /** The dependencies of t in order, each with t on the path, stopping at
        the first failure. */
    method CreateDeps(t: string, visiting: set<string>) returns (outcome: Outcome)
      requires t in plans && t !in visiting
      modifies this
      decreases |plans.Keys - visiting|, 0
      ensures var run := ResolveDeps(plans, t, visiting, 0, old(created));
        outcome == run.outcome && created == run.created && pkg == old(pkg) + run.nodes
    {
      var deps := plans[t].deps;
      PathShrinks(plans.Keys, visiting, t);
      ghost var pkg0 := pkg;
      ghost var whole := ResolveDeps(plans, t, visiting, 0, created);
      // done: the nodes the dependencies before i appended
      ghost var done: seq<N> := [];
      outcome := Done;
      var i := 0;
      while i < |deps|
        invariant 0 <= i <= |deps|
        invariant outcome == Done
        invariant pkg == pkg0 + done
        invariant Continues(whole, done, ResolveDeps(plans, t, visiting, i, created))
      {
        ghost var first := Resolve(plans, deps[i], visiting + {t}, created);
        DepsContinue(plans, t, visiting, i, created, whole, done);
        outcome := Create(deps[i], visiting + {t});
        done := done + first.nodes;
        if !outcome.Done? {
          return;
        }
        i := i + 1;
      }
    }

    /** The walk started at each name in turn, with an empty path. */
    method CreateAll(names: seq<string>) returns (outcome: Outcome)
      modifies this
      ensures var run := ResolveAll(plans, names, 0, old(created));
        outcome == run.outcome && created == run.created && pkg == old(pkg) + run.nodes
    {
      ghost var pkg0 := pkg;
      ghost var whole := ResolveAll(plans, names, 0, created);
      ghost var done: seq<N> := [];
      outcome := Done;
      var i := 0;
      while i < |names|
        invariant 0 <= i <= |names|
        invariant outcome == Done
        invariant pkg == pkg0 + done
        invariant Continues(whole, done, ResolveAll(plans, names, i, created))
      {
        ghost var first := Resolve(plans, names[i], {}, created);
        AllContinue(plans, names, i, created, whole, done);
        outcome := Create(names[i], {});
        done := done + first.nodes;
        if !outcome.Done? {
          return;
        }
        i := i + 1;
      }
    }

    /** The recursive IDT creation of t: the memo check first and no cycle
        check; path is the chain of names being resolved, kept only to say
        where the source would recurse for ever. */
    method CreateUnchecked(t: string, path: set<string>) returns (outcome: Outcome)
      modifies this
      decreases |plans.Keys - path|, 1
      ensures var run := ResolveUnchecked(plans, t, path, old(created));
        outcome == run.outcome && created == run.created && pkg == old(pkg) + run.nodes
    {
      if t in created {
        return Done;
      }
      if t !in plans {
        return Done;
      }
      if t in path {
        // the source recurses here without end; the model stops and says so
        return EndlessRecursion(t);
      }
      PathShrinks(plans.Keys, path, t);
      outcome := CreateUncheckedDeps(t, path);
      if outcome.Done? && plans[t].node.Some? {
        pkg := pkg + [plans[t].node.value];
        created := created + {t};
      }
    }

    method CreateUncheckedDeps(t: string, path: set<string>) returns (outcome: Outcome)
      requires t in plans && t !in path
      modifies this
      decreases |plans.Keys - path|, 0
      ensures var run := ResolveUncheckedDeps(plans, t, path, 0, old(created));
        outcome == run.outcome && created == run.created && pkg == old(pkg) + run.nodes
    {
      var deps := plans[t].deps;
      PathShrinks(plans.Keys, path, t);
      ghost var pkg0 := pkg;
      ghost var whole := ResolveUncheckedDeps(plans, t, path, 0, created);
      ghost var done: seq<N> := [];
      outcome := Done;
      var i := 0;
      while i < |deps|
        invariant 0 <= i <= |deps|
        invariant outcome == Done
        invariant pkg == pkg0 + done
        invariant Continues(whole, done, ResolveUncheckedDeps(plans, t, path, i, created))
      {
        ghost var first := ResolveUnchecked(plans, deps[i], path + {t}, created);
        UncheckedDepsContinue(plans, t, path, i, created, whole, done);
        outcome := CreateUnchecked(deps[i], path + {t});
        done := done + first.nodes;
        if !outcome.Done? {
          return;
        }
        i := i + 1;
      }
    }

    /** `for tname in all_types_needed: if tname not in created_idt_types:
        _create_and_add_type(tname, idt_pkg)` */
    method CreateAllUnchecked(names: seq<string>) returns (outcome: Outcome)
      modifies this
      ensures var run := ResolveAllUnchecked(plans, names, 0, old(created));
        outcome == run.outcome && created == run.created && pkg == old(pkg) + run.nodes
    {
      ghost var pkg0 := pkg;
      ghost var whole := ResolveAllUnchecked(plans, names, 0, created);
      ghost var done: seq<N> := [];
      outcome := Done;
      var i := 0;
      while i < |names|
        invariant 0 <= i <= |names|
        invariant outcome == Done
        invariant pkg == pkg0 + done
        invariant Continues(whole, done, ResolveAllUnchecked(plans, names, i, created))
      {
        ghost var first := ResolveUnchecked(plans, names[i], {}, created);
        AllUncheckedContinue(plans, names, i, created, whole, done);
        if names[i] !in created {
          outcome := CreateUnchecked(names[i], {});
        } else {
          assert first == Run(Done, created, [], []);
        }
        done := done + first.nodes;
        if !outcome.Done? {
          return;
        }
        i := i + 1;
      }
    }
  }
}
