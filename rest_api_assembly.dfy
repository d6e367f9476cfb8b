/**
 * The constructor of `RestApiConstruct` (lines 128-225 of
 * lib/constructs/rest-api-construct.ts): for each configured path, in order, walk its
 * segments down the API's resource tree, creating the resources that are missing, then
 * register the route on the resource reached. The CDK calls are recorded in a log.
 *
 * `Assemble` gives the meaning of the loop over the paths as a fold; the class
 * `RestApiConstruct` holds the tree and the log and runs the source's loops, each
 * method being proved against the fold or the function it steps through.
 */
module RestApiAssembly {
  import opened Wrappers
  import opened RestApi
  import opened ResourceTree

  /** `pathSegments.map(ensurePathIdentifier)`. */
  function Identifiers(segments: seq<string>): (r: seq<string>)
    ensures |r| == |segments|
    ensures forall i | 0 <= i < |r| :: r[i] == EnsurePathIdentifier(segments[i])
  {
    if |segments| == 0 then [] else [EnsurePathIdentifier(segments[0])] + Identifiers(segments[1..])
  }

  /** The identifiers of a path's segments are the segments themselves. */
  lemma IdentifiersOfPath(fullPath: string)
    ensures Identifiers(PathSegments(fullPath)) == PathSegments(fullPath)
  {
    var segments := PathSegments(fullPath);
    PathSegmentsAreIdentifiers(fullPath);
    IdentifiersUnchanged(segments);
  }

  lemma IdentifiersUnchanged(segments: seq<string>)
    requires forall s | s in segments :: EnsurePathIdentifier(s) == s
    ensures Identifiers(segments) == segments
  {
    assert forall i | 0 <= i < |segments| :: segments[i] in segments;
  }

  /** The API under construction: its resource tree and the calls made so far. */
  datatype Api = Api(tree: Tree, log: seq<Registration>)

  /** The resource `fullPath` leads to, and the tree grown to reach it (lines 129-140). */
  function ResourceOf(tree: Tree, fullPath: string): (Tree, nat)
  {
    Walk(tree, 0, Identifiers(PathSegments(fullPath)))
  }

  /**
   * The loop over `Object.entries(params.paths)` from `api`: the final API, and whether
   * the loop completes or a route throws, which ends the construction.
   */
  function Assemble(api: Api, global: GlobalParams, paths: seq<(string, RouteParams)>): (Api, Outcome<ApiError>)
    decreases |paths|
  {
    if |paths| == 0 then (api, Pass)
    else
      var (fullPath, route) := paths[0];
      var reached := ResourceOf(api.tree, fullPath);
      var e := RouteRegistrations(global, fullPath, route, reached.1);
      var next := Api(reached.0, api.log + e.log);
      if e.outcome.Fail? then (next, e.outcome) else Assemble(next, global, paths[1..])
  }

  /** `new RestApiConstruct(scope, id, { globalParams, paths })`. */
  function Build(global: GlobalParams, paths: seq<(string, RouteParams)>): (Api, Outcome<ApiError>)
  {
    Assemble(Api(RootOnly, []), global, paths)
  }

  /** Stated apart so that the methods that extend the log stay within the resource limit. */
  lemma AppendAssociative(a: seq<Registration>, b: seq<Registration>, c: seq<Registration>)
    ensures a + b + c == a + (b + c)
  {
  }

  // ---------------------------------------------------------------------------------
  // The construct.

  class RestApiConstruct {
    var nodes: seq<Resource>
    var children: map<(nat, string), nat>
    var log: seq<Registration>

    function CurrentTree(): Tree
      reads this
    {
      Tree(nodes, children)
    }

    function State(): Api
      reads this
    {
      Api(Tree(nodes, children), log)
    }

    predicate Valid()
      reads this
    {
      ResourceTree.Valid(Tree(nodes, children))
    }

    /** `new RestApi(...)`: a tree holding the root resource alone, and nothing registered. */
    constructor ()
      ensures Valid() && State() == Api(RootOnly, [])
    {
      nodes := [Root];
      children := map[];
      log := [];
    }

    /** `resource.getResource(pathPart)`, or `resource.addResource(pathPart)` when there is none. */
    method GetOrAddResource(parent: nat, pathPart: string) returns (child: nat)
      requires Valid() && parent < |nodes|
      modifies this
      ensures Valid() && child < |nodes|
      ensures (CurrentTree(), child) == GetOrAdd(old(CurrentTree()), parent, pathPart)
      ensures log == old(log)
    {
      GetOrAddValid(CurrentTree(), parent, pathPart);
      if (parent, pathPart) in children {
        child := children[(parent, pathPart)];
      } else {
        child := |nodes|;
        nodes := nodes + [Resource(Some(parent), pathPart)];
        children := children[(parent, pathPart) := child];
      }
    }

    /** The `reduce` of lines 130-140, starting at the root. */
    method ResourceFor(pathParts: seq<string>) returns (leaf: nat)
      requires Valid()
      modifies this
      ensures Valid() && leaf < |nodes|
      ensures (CurrentTree(), leaf) == Walk(old(CurrentTree()), 0, pathParts)
      ensures log == old(log)
    {
      leaf := 0;
      var i := 0;
      assert pathParts[0..] == pathParts;
      while i < |pathParts|
        invariant 0 <= i <= |pathParts|
        invariant Valid() && leaf < |nodes|
        invariant Walk(CurrentTree(), leaf, pathParts[i..]) == Walk(old(CurrentTree()), 0, pathParts)
        invariant log == old(log)
      {
        assert pathParts[i..][0] == pathParts[i] && pathParts[i..][1..] == pathParts[i + 1..];
        leaf := GetOrAddResource(leaf, pathParts[i]);
        i := i + 1;
      }
    }

    /**
     * Lines 142-223 for one route on the resource `leaf`: the proxy, or the loop over
     * the HTTP methods.
     */
    method AddRoute(global: GlobalParams, fullPath: string, route: RouteParams, leaf: nat) returns (outcome: Outcome<ApiError>)
      modifies this
      ensures nodes == old(nodes) && children == old(children)
      ensures log == old(log) + RouteRegistrations(global, fullPath, route, leaf).log
      ensures outcome == RouteRegistrations(global, fullPath, route, leaf).outcome
    {
      if IsProxyResourceDef(route) {
        var integration := Resolve(route.proxy.value, SkipRequestTemplateCreation);
        if integration.Failure? {
          return Fail(integration.error);
        }
        log := log + [ProxyAdded(leaf, integration.value)];
        return Pass;
      }
      outcome := AddMethods(global, NameCreator(fullPath), PathParams(PathSegments(fullPath)), route, leaf);
    }

    /**
     * The loop of lines 160-223: "get", "post", "put", "delete" in that order, skipping
     * the methods the route does not define, each method's artifacts being named by
     * `createNames` (`createName`, line 167); a throw ends it.
     */
    method AddMethods(global: GlobalParams, createNames: HttpMethod -> ArtifactNames, pathParams: seq<string>,
                      route: RouteParams, leaf: nat) returns (outcome: Outcome<ApiError>)
      modifies this
      ensures nodes == old(nodes) && children == old(children)
      ensures var e := MethodsRegistrations(global, createNames, pathParams, leaf, DefinedMethods(route, |HttpMethods|));
        log == old(log) + e.log && outcome == e.outcome
    {
      ghost var log0 := log;
      // The registrations of all the route's methods, which the loop builds towards.
      ghost var all := MethodsRegistrations(global, createNames, pathParams, leaf, DefinedMethods(route, |HttpMethods|));
      var k := 0;
      while k < |HttpMethods|
        invariant 0 <= k <= |HttpMethods|
        invariant nodes == old(nodes) && children == old(children) && log0 == old(log)
        invariant var e := MethodsRegistrations(global, createNames, pathParams, leaf, DefinedMethods(route, k));
          e.outcome.Pass? && log == log0 + e.log
      {
        outcome := AddMethodAt(global, createNames, pathParams, route, leaf, k, log0);
        if outcome.Fail? {
          MethodsRegistrationsStopAt(global, createNames, pathParams, leaf, route, k + 1);
          return;
        }
        k := k + 1;
      }
      return Pass;
    }

    /**
     * The body of the loop of lines 160-223 for the `k`-th method: nothing when the route
     * does not define it (the `continue` of lines 163-165), else its registrations.
     */
    method AddMethodAt(global: GlobalParams, createNames: HttpMethod -> ArtifactNames, pathParams: seq<string>,
                       route: RouteParams, leaf: nat, k: nat, ghost log0: seq<Registration>)
      returns (outcome: Outcome<ApiError>)
      requires k < |HttpMethods|
      requires var e := MethodsRegistrations(global, createNames, pathParams, leaf, DefinedMethods(route, k));
        e.outcome.Pass? && log == log0 + e.log
      modifies this
      ensures nodes == old(nodes) && children == old(children)
      ensures var e := MethodsRegistrations(global, createNames, pathParams, leaf, DefinedMethods(route, k + 1));
        log == log0 + e.log && outcome == e.outcome
    {
      MethodsRegistrationsNext(global, createNames, pathParams, leaf, route, k);
      ghost var prev := MethodsRegistrations(global, createNames, pathParams, leaf, DefinedMethods(route, k));
      var httpMethod := HttpMethods[k];
      var methodDef := MethodDefinition(route, httpMethod);
      if methodDef.None? {
        return Pass;
      }
      outcome := AddMethod(global, createNames(httpMethod), pathParams, leaf, httpMethod, methodDef.value);
      ghost var step := MethodRegistrations(global, createNames(httpMethod), pathParams, leaf, httpMethod, methodDef.value);
      AppendAssociative(log0, prev.log, step.log);
    }

    /**
     * One iteration of the loop of lines 160-223 for a defined method: `addCorsPreflight`,
     * the resolver, the models `addModelFromZodSchema` registers while the options are
     * built, and `addMethod`, each logged in the order the calls happen; a throw ends
     * the iteration.
     */
    method AddMethod(global: GlobalParams, names: ArtifactNames, pathParams: seq<string>, leaf: nat,
                     httpMethod: HttpMethod, def: ResourceDef) returns (outcome: Outcome<ApiError>)
      modifies this
      ensures nodes == old(nodes) && children == old(children)
      ensures log == old(log) + MethodRegistrations(global, names, pathParams, leaf, httpMethod, def).log
      ensures outcome == MethodRegistrations(global, names, pathParams, leaf, httpMethod, def).outcome
    {
      ghost var preflight := Preflight(global, leaf);
      if global.cors.Some? {
        log := log + [CorsPreflightAdded(leaf, global.cors.value)];
      }
      assert log == old(log) + preflight;
      var integration := Resolve(def, WithPathParams(pathParams));
      if integration.Failure? {
        return Fail(integration.error);
      }
      var models := MethodModels(names, def);
      log := log + models.0;
      AppendAssociative(old(log), preflight, models.0);
      if models.1.Failure? {
        return Fail(models.1.error);
      }
      var options := MethodOptionsFor(global, names, pathParams, def, models.1.value.0, models.1.value.1);
      var added := MethodAdded(leaf, MethodVerb(httpMethod), integration.value, options);
      AppendAssociative(old(log), preflight + models.0, [added]);
      log := log + [added];
      return Pass;
    }

    /** The loop of lines 128-225 over `paths`, in order; a throw ends it. */
    method RegisterPaths(global: GlobalParams, paths: seq<(string, RouteParams)>) returns (outcome: Outcome<ApiError>)
      requires Valid()
      modifies this
      ensures Valid()
      ensures (State(), outcome) == Assemble(old(State()), global, paths)
    {
      var i := 0;
      assert paths[0..] == paths;
      while i < |paths|
        invariant 0 <= i <= |paths|
        invariant Valid()
        invariant Assemble(State(), global, paths[i..]) == Assemble(old(State()), global, paths)
      {
        var (fullPath, route) := paths[i];
        assert paths[i..][0] == (fullPath, route) && paths[i..][1..] == paths[i + 1..];
        var pathSegments := PathSegments(fullPath);
        var leaf := ResourceFor(Identifiers(pathSegments));
        outcome := AddRoute(global, fullPath, route, leaf);
        if outcome.Fail? {
          return;
        }
        i := i + 1;
      }
      outcome := Pass;
    }
  }

  // ---------------------------------------------------------------------------------
  // What the loop over the paths does.

  lemma PrefixTransitive(a: seq<Registration>, b: seq<Registration>, c: seq<Registration>)
    requires a <= b && b <= c
    ensures a <= c
  {
    assert c[..|a|] == c[..|b|][..|a|];
  }

  /** Construction only grows the tree and appends to the log. */
  lemma {:induction false} AssembleGrows(api: Api, global: GlobalParams, paths: seq<(string, RouteParams)>)
    requires ResourceTree.Valid(api.tree)
    ensures var r := Assemble(api, global, paths).0;
      ResourceTree.Valid(r.tree) && Extends(api.tree, r.tree) && api.log <= r.log
    decreases |paths|
  {
    if |paths| == 0 {
      assert api.tree.nodes[..|api.tree.nodes|] == api.tree.nodes;
    } else {
      var (fullPath, route) := paths[0];
      var reached := ResourceOf(api.tree, fullPath);
      WalkValid(api.tree, 0, Identifiers(PathSegments(fullPath)));
      var e := RouteRegistrations(global, fullPath, route, reached.1);
      var next := Api(reached.0, api.log + e.log);
      assert (api.log + e.log)[..|api.log|] == api.log;
      if e.outcome.Pass? {
        var r := Assemble(next, global, paths[1..]).0;
        AssembleGrows(next, global, paths[1..]);
        ExtendsTransitive(api.tree, next.tree, r.tree);
        PrefixTransitive(api.log, next.log, r.log);
      }
    }
  }

  /** Construction completes exactly when every route is accepted. */
  lemma {:induction false} AssembleOutcome(api: Api, global: GlobalParams, paths: seq<(string, RouteParams)>)
    ensures Assemble(api, global, paths).1.Pass? <==> forall i | 0 <= i < |paths| :: RouteAccepted(paths[i].0, paths[i].1)
    decreases |paths|
  {
    if |paths| > 0 {
      var (fullPath, route) := paths[0];
      var reached := ResourceOf(api.tree, fullPath);
      RouteRegistrationsOutcome(global, fullPath, route, reached.1);
      var next := Api(reached.0, api.log + RouteRegistrations(global, fullPath, route, reached.1).log);
      AssembleOutcome(next, global, paths[1..]);
      assert forall i | 1 <= i < |paths| :: paths[1..][i - 1] == paths[i];
    }
  }

  /** Routes are registered in the order of the paths: `a + b` is `a`, then `b` from the API `a` built. */
  lemma {:induction false} AssembleAppend(api: Api, global: GlobalParams, a: seq<(string, RouteParams)>, b: seq<(string, RouteParams)>)
    ensures var first := Assemble(api, global, a);
      Assemble(api, global, a + b) == if first.1.Fail? then first else Assemble(first.0, global, b)
    decreases |a|
  {
    if |a| == 0 {
      assert a + b == b;
    } else {
      assert (a + b)[0] == a[0] && (a + b)[1..] == a[1..] + b;
      var (fullPath, route) := a[0];
      var reached := ResourceOf(api.tree, fullPath);
      var e := RouteRegistrations(global, fullPath, route, reached.1);
      AssembleAppend(Api(reached.0, api.log + e.log), global, a[1..], b);
    }
  }

  /** `segments` are the segments of one of the configured paths. */
  predicate OnSomePath(segments: seq<string>, paths: seq<(string, RouteParams)>)
    decreases |paths|
  {
    |paths| > 0 && (PathSegments(paths[0].0) == segments || OnSomePath(segments, paths[1..]))
  }

  lemma {:induction false} OnSomePathAppend(segments: seq<string>, a: seq<(string, RouteParams)>, b: seq<(string, RouteParams)>)
    requires OnSomePath(segments, a) || OnSomePath(segments, b)
    ensures OnSomePath(segments, a + b)
    decreases |a|
  {
    if |a| > 0 {
      assert (a + b)[0] == a[0] && (a + b)[1..] == a[1..] + b;
      if PathSegments(a[0].0) != segments {
        OnSomePathAppend(segments, a[1..], b);
      }
    } else {
      assert a + b == b;
    }
  }

  /** A proxy, preflight or method sits on the resource of one of `paths`; a model sits nowhere. */
  predicate PlacedEntry(tree: Tree, x: Registration, paths: seq<(string, RouteParams)>)
    requires ResourceTree.Valid(tree)
  {
    !x.ModelAdded? ==> x.resource < |tree.nodes| && OnSomePath(PathOf(tree, x.resource), paths)
  }

  /** Every proxy, preflight and method in the log sits on the resource of one of `paths`. */
  predicate Placed(api: Api, paths: seq<(string, RouteParams)>)
    requires ResourceTree.Valid(api.tree)
  {
    forall j | 0 <= j < |api.log| :: PlacedEntry(api.tree, api.log[j], paths)
  }

  /** An entry stays placed when the tree grows and more paths are configured. */
  lemma PlacedEntryKept(tree: Tree, later: Tree, x: Registration, done: seq<(string, RouteParams)>,
                        more: seq<(string, RouteParams)>)
    requires ResourceTree.Valid(tree) && ResourceTree.Valid(later) && Extends(tree, later)
    requires PlacedEntry(tree, x, done)
    ensures PlacedEntry(later, x, done + more)
  {
    if !x.ModelAdded? {
      ExtendsPathOf(tree, later, x.resource);
      OnSomePathAppend(PathOf(tree, x.resource), done, more);
    }
  }

  /** The resource a path leads to has the path's segments as its path. */
  lemma ResourceOfPath(tree: Tree, fullPath: string)
    requires ResourceTree.Valid(tree)
    ensures var reached := ResourceOf(tree, fullPath);
      && ResourceTree.Valid(reached.0) && reached.1 < |reached.0.nodes| && Extends(tree, reached.0)
      && PathOf(reached.0, reached.1) == PathSegments(fullPath)
  {
    var segments := PathSegments(fullPath);
    IdentifiersOfPath(fullPath);
    WalkValid(tree, 0, segments);
    assert [] + segments == segments;
  }

  lemma PlacedEntryLater(tree: Tree, x: Registration, done: seq<(string, RouteParams)>, more: seq<(string, RouteParams)>)
    requires ResourceTree.Valid(tree) && PlacedEntry(tree, x, more)
    ensures PlacedEntry(tree, x, done + more)
  {
    if !x.ModelAdded? {
      OnSomePathAppend(PathOf(tree, x.resource), done, more);
    }
  }

  /** A grown tree places the old registrations where they were. */
  lemma PlacedGrows(api: Api, tree: Tree, extra: seq<Registration>, done: seq<(string, RouteParams)>, more: seq<(string, RouteParams)>)
    requires ResourceTree.Valid(api.tree) && ResourceTree.Valid(tree) && Extends(api.tree, tree)
    requires Placed(api, done)
    requires forall j | 0 <= j < |extra| :: PlacedEntry(tree, extra[j], more)
    ensures Placed(Api(tree, api.log + extra), done + more)
  {
    var log := api.log + extra;
    forall j | 0 <= j < |log|
      ensures PlacedEntry(tree, log[j], done + more)
    {
      if j < |api.log| {
        assert log[j] == api.log[j];
        PlacedEntryKept(api.tree, tree, api.log[j], done, more);
      } else {
        assert log[j] == extra[j - |api.log|];
        PlacedEntryLater(tree, log[j], done, more);
      }
    }
  }

  lemma SplitFirst(done: seq<(string, RouteParams)>, paths: seq<(string, RouteParams)>)
    requires |paths| > 0
    ensures done + [paths[0]] + paths[1..] == done + paths
  {
    assert [paths[0]] + paths[1..] == paths;
  }

  /**
   * The log and the tree agree: every proxy, preflight and method registered sits on
   * the resource whose path is the segments of one of the configured paths.
   */
  lemma {:induction false} AssemblePlaced(api: Api, global: GlobalParams, done: seq<(string, RouteParams)>, paths: seq<(string, RouteParams)>)
    requires ResourceTree.Valid(api.tree) && Placed(api, done)
    ensures var r := Assemble(api, global, paths).0;
      ResourceTree.Valid(r.tree) && Placed(r, done + paths)
    decreases |paths|
  {
    AssembleGrows(api, global, paths);
    if |paths| == 0 {
      assert done + paths == done;
    } else {
      var (fullPath, route) := paths[0];
      var reached := ResourceOf(api.tree, fullPath);
      var e := RouteRegistrations(global, fullPath, route, reached.1);
      FirstRoutePlaced(api, global, done, paths[0]);
      var next := Api(reached.0, api.log + e.log);
      if e.outcome.Pass? {
        AssemblePlaced(next, global, done + [paths[0]], paths[1..]);
        SplitFirst(done, paths);
      } else {
        PlacedMore(next, done + [paths[0]], paths[1..]);
        SplitFirst(done, paths);
      }
    }
  }

  /** The registrations of one more route sit on that route's resource. */
  lemma FirstRoutePlaced(api: Api, global: GlobalParams, done: seq<(string, RouteParams)>, first: (string, RouteParams))
    requires ResourceTree.Valid(api.tree) && Placed(api, done)
    ensures var reached := ResourceOf(api.tree, first.0);
      var e := RouteRegistrations(global, first.0, first.1, reached.1);
      ResourceTree.Valid(reached.0) && Placed(Api(reached.0, api.log + e.log), done + [first])
  {
    var (fullPath, route) := first;
    var reached := ResourceOf(api.tree, fullPath);
    ResourceOfPath(api.tree, fullPath);
    var e := RouteRegistrations(global, fullPath, route, reached.1);
    RouteRegistrationsAtLeaf(global, fullPath, route, reached.1);
    assert OnSomePath(PathSegments(fullPath), [first]);
    assert forall j | 0 <= j < |e.log| :: PlacedEntry(reached.0, e.log[j], [first]);
    PlacedGrows(api, reached.0, e.log, done, [first]);
  }

  lemma PlacedMore(api: Api, done: seq<(string, RouteParams)>, more: seq<(string, RouteParams)>)
    requires ResourceTree.Valid(api.tree) && Placed(api, done)
    ensures Placed(api, done + more)
  {
    forall j | 0 <= j < |api.log|
      ensures PlacedEntry(api.tree, api.log[j], done + more)
    {
      PlacedEntryKept(api.tree, api.tree, api.log[j], done, more);
    }
  }

  /** The tree has a resource whose path is `segments`. */
  predicate HasResource(tree: Tree, segments: seq<string>)
    requires ResourceTree.Valid(tree)
  {
    exists n | 0 <= n < |tree.nodes| :: PathOf(tree, n) == segments
  }

  lemma HasResourceGrows(tree: Tree, later: Tree, segments: seq<string>)
    requires ResourceTree.Valid(tree) && ResourceTree.Valid(later) && Extends(tree, later)
    requires HasResource(tree, segments)
    ensures HasResource(later, segments)
  {
    var n :| 0 <= n < |tree.nodes| && PathOf(tree, n) == segments;
    ExtendsPathOf(tree, later, n);
  }

  /** Each of `paths` has its resource in the tree. */
  predicate EveryPathHasResource(tree: Tree, paths: seq<(string, RouteParams)>)
    requires ResourceTree.Valid(tree)
    decreases |paths|
  {
    |paths| == 0 || (HasResource(tree, PathSegments(paths[0].0)) && EveryPathHasResource(tree, paths[1..]))
  }

  lemma {:induction false} EveryPathHasResourceMeans(tree: Tree, paths: seq<(string, RouteParams)>)
    requires ResourceTree.Valid(tree)
    ensures EveryPathHasResource(tree, paths) <==> forall i | 0 <= i < |paths| :: HasResource(tree, PathSegments(paths[i].0))
    decreases |paths|
  {
    if |paths| > 0 {
      var rest := paths[1..];
      EveryPathHasResourceMeans(tree, rest);
      if EveryPathHasResource(tree, paths) {
        forall i | 0 <= i < |paths| ensures HasResource(tree, PathSegments(paths[i].0)) {
          if i > 0 {
            assert paths[i] == rest[i - 1];
          }
        }
      }
      if forall i | 0 <= i < |paths| :: HasResource(tree, PathSegments(paths[i].0)) {
        forall i | 0 <= i < |rest| ensures HasResource(tree, PathSegments(rest[i].0)) {
          assert rest[i] == paths[i + 1];
        }
      }
    }
  }

  /** A completed construction has a resource for every configured path. */
  lemma {:induction false} AssembleResources(api: Api, global: GlobalParams, paths: seq<(string, RouteParams)>)
    requires ResourceTree.Valid(api.tree)
    ensures var r := Assemble(api, global, paths);
      && ResourceTree.Valid(r.0.tree)
      && (r.1.Pass? ==> EveryPathHasResource(r.0.tree, paths))
    decreases |paths|
  {
    AssembleGrows(api, global, paths);
    if |paths| > 0 {
      var (fullPath, route) := paths[0];
      var reached := ResourceOf(api.tree, fullPath);
      var e := RouteRegistrations(global, fullPath, route, reached.1);
      var next := Api(reached.0, api.log + e.log);
      if e.outcome.Pass? {
        var r := Assemble(next, global, paths[1..]);
        assert HasResource(reached.0, PathSegments(fullPath)) by {
          ResourceOfPath(api.tree, fullPath);
        }
        assert HasResource(r.0.tree, PathSegments(fullPath)) by {
          AssembleGrows(next, global, paths[1..]);
          HasResourceGrows(reached.0, r.0.tree, PathSegments(fullPath));
        }
        AssembleResources(next, global, paths[1..]);
      }
    }
  }

  /** A completed construction has a resource for each configured path, stated path by path. */
  lemma BuildResources(global: GlobalParams, paths: seq<(string, RouteParams)>)
    ensures var r := Build(global, paths);
      && ResourceTree.Valid(r.0.tree)
      && (r.1.Pass? ==> forall i | 0 <= i < |paths| :: HasResource(r.0.tree, PathSegments(paths[i].0)))
  {
    var r := Build(global, paths);
    AssembleResources(Api(RootOnly, []), global, paths);
    EveryPathHasResourceMeans(r.0.tree, paths);
  }

  /** A new construct with no paths has only the root and registers nothing. */
  lemma BuildNothing(global: GlobalParams)
    ensures Build(global, []) == (Api(RootOnly, []), Pass)
  {
  }
}
