/**
 * The API's resource tree as the constructor grows it (lines 129-140 of
 * lib/constructs/rest-api-construct.ts): an arena of resources, node 0 being the root,
 * and a map from (parent, path part) to the child created under that parent for that
 * part. A path is walked from a resource one segment at a time, reusing the child
 * `getResource` finds and calling `addResource` only when there is none.
 */
module ResourceTree {
  import opened Wrappers

  /** A resource: its parent (none for the root) and the path part it was added under. */
  datatype Resource = Resource(parent: Option<nat>, pathPart: string)

  datatype Tree = Tree(nodes: seq<Resource>, children: map<(nat, string), nat>)

  const Root := Resource(None, "")

  /** The tree of a new `RestApi`: its root resource alone. */
  const RootOnly := Tree([Root], map[])

  /**
   * Node 0 is the root; every other node was added under an earlier one and is the
   * child registered for its (parent, path part); every registered child is such a node.
   */
  predicate Valid(t: Tree)
  {
    && |t.nodes| > 0 && t.nodes[0] == Root
    && (forall i | 0 < i < |t.nodes| ::
          t.nodes[i].parent.Some? && t.nodes[i].parent.value < i
          && (t.nodes[i].parent.value, t.nodes[i].pathPart) in t.children
          && t.children[(t.nodes[i].parent.value, t.nodes[i].pathPart)] == i)
    && (forall k | k in t.children ::
          0 < t.children[k] < |t.nodes| && t.nodes[t.children[k]] == Resource(Some(k.0), k.1))
  }

  /** The path parts from the root down to node `i`. */
  function PathOf(t: Tree, i: nat): seq<string>
    requires Valid(t) && i < |t.nodes|
    decreases i
  {
    if i == 0 then [] else PathOf(t, t.nodes[i].parent.value) + [t.nodes[i].pathPart]
  }

  /** `t'` is `t` grown: no node is removed or changed and no child link is dropped. */
  predicate Extends(t: Tree, t': Tree)
  {
    && |t.nodes| <= |t'.nodes| && t'.nodes[..|t.nodes|] == t.nodes
    && forall k | k in t.children :: k in t'.children && t'.children[k] == t.children[k]
  }

  /** `resource.getResource(pathPart) ?? resource.addResource(pathPart)`. */
  function GetOrAdd(t: Tree, parent: nat, pathPart: string): (Tree, nat)
  {
    if (parent, pathPart) in t.children then (t, t.children[(parent, pathPart)])
    else (Tree(t.nodes + [Resource(Some(parent), pathPart)], t.children[(parent, pathPart) := |t.nodes|]), |t.nodes|)
  }

  /** The `reduce` over the segments: the tree grown along them, and the resource reached. */
  function Walk(t: Tree, from: nat, segments: seq<string>): (Tree, nat)
    decreases |segments|
  {
    if |segments| == 0 then (t, from)
    else
      var step := GetOrAdd(t, from, segments[0]);
      Walk(step.0, step.1, segments[1..])
  }

  // ---------------------------------------------------------------------------------
  // Growth.

  lemma ExtendsTransitive(t1: Tree, t2: Tree, t3: Tree)
    requires Extends(t1, t2) && Extends(t2, t3)
    ensures Extends(t1, t3)
  {
    assert t3.nodes[..|t1.nodes|] == t3.nodes[..|t2.nodes|][..|t1.nodes|];
  }

  /** A grown tree keeps the path of every node it had. */
  lemma {:induction false} ExtendsPathOf(t: Tree, t': Tree, i: nat)
    requires Valid(t) && Valid(t') && Extends(t, t') && i < |t.nodes|
    ensures i < |t'.nodes| && PathOf(t', i) == PathOf(t, i)
    decreases i
  {
    assert t'.nodes[i] == t'.nodes[..|t.nodes|][i];
    if i > 0 {
      ExtendsPathOf(t, t', t.nodes[i].parent.value);
    }
  }

  /**
   * Insert-or-get keeps the tree valid and only grows it: it reuses the child registered
   * for (parent, path part) when there is one, and otherwise appends exactly one node.
   * Either way the resource returned has the parent's path with the part appended.
   */
  lemma GetOrAddValid(t: Tree, parent: nat, pathPart: string)
    requires Valid(t) && parent < |t.nodes|
    ensures var r := GetOrAdd(t, parent, pathPart);
      && Valid(r.0) && r.1 < |r.0.nodes| && Extends(t, r.0)
      && ((parent, pathPart) in t.children ==> r == (t, t.children[(parent, pathPart)]))
      && ((parent, pathPart) !in t.children ==>
            r.0.nodes == t.nodes + [Resource(Some(parent), pathPart)] && r.1 == |t.nodes|)
      && PathOf(r.0, r.1) == PathOf(t, parent) + [pathPart]
  {
    var r := GetOrAdd(t, parent, pathPart);
    if (parent, pathPart) !in t.children {
      var child := |t.nodes|;
      assert forall i | 0 < i < child :: r.0.nodes[i] == t.nodes[i];
      assert r.0.nodes[..child] == t.nodes;
    }
    ExtendsPathOf(t, r.0, parent);
    assert r.0.nodes[r.1] == Resource(Some(parent), pathPart);
  }

  /** Stated apart so that `WalkValid` stays within the resource limit. */
  lemma ConsTail(p: seq<string>, segments: seq<string>)
    requires |segments| > 0
    ensures p + [segments[0]] + segments[1..] == p + segments
  {
    assert [segments[0]] + segments[1..] == segments;
  }

  /**
   * Walking keeps the tree valid and only grows it, and the resource reached has the
   * walked segments appended to the path of the resource the walk started from.
   */
  lemma {:induction false} WalkValid(t: Tree, from: nat, segments: seq<string>)
    requires Valid(t) && from < |t.nodes|
    ensures var r := Walk(t, from, segments);
      && Valid(r.0) && r.1 < |r.0.nodes| && Extends(t, r.0)
      && PathOf(r.0, r.1) == PathOf(t, from) + segments
    decreases |segments|
  {
    if |segments| == 0 {
      assert t.nodes[..|t.nodes|] == t.nodes;
    } else {
      var step := GetOrAdd(t, from, segments[0]);
      GetOrAddValid(t, from, segments[0]);
      var r := Walk(step.0, step.1, segments[1..]);
      WalkValid(step.0, step.1, segments[1..]);
      ExtendsTransitive(t, step.0, r.0);
      ExtendsPathOf(step.0, r.0, step.1);
      ConsTail(PathOf(t, from), segments);
    }
  }

  /** Walking `a + b` is walking `a`, then `b` from where `a` ended. */
  lemma {:induction false} WalkAppend(t: Tree, from: nat, a: seq<string>, b: seq<string>)
    ensures var mid := Walk(t, from, a);
      Walk(t, from, a + b) == Walk(mid.0, mid.1, b)
    decreases |a|
  {
    if |a| == 0 {
      assert a + b == b;
    } else {
      var step := GetOrAdd(t, from, a[0]);
      assert (a + b)[0] == a[0] && (a + b)[1..] == a[1..] + b;
      WalkAppend(step.0, step.1, a[1..], b);
    }
  }

  // ---------------------------------------------------------------------------------
  // One node per path.

  /** At most one node per path: distinct nodes have distinct paths. */
  lemma {:induction false} PathOfInjective(t: Tree, i: nat, j: nat)
    requires Valid(t) && i < |t.nodes| && j < |t.nodes|
    requires PathOf(t, i) == PathOf(t, j)
    ensures i == j
    decreases i + j
  {
    if i != 0 && j != 0 {
      var pi := t.nodes[i].parent.value;
      var pj := t.nodes[j].parent.value;
      SnocInjective(PathOf(t, pi), t.nodes[i].pathPart, PathOf(t, pj), t.nodes[j].pathPart);
      PathOfInjective(t, pi, pj);
    }
  }

  lemma SnocParts(p: seq<string>, segments: seq<string>)
    requires |segments| > 0
    ensures p + segments == p + segments[..|segments| - 1] + [segments[|segments| - 1]]
    ensures segments[..|segments| - 1] + [segments[|segments| - 1]] == segments
  {
    assert segments[..|segments| - 1] + [segments[|segments| - 1]] == segments;
  }

  lemma SnocInjective(a: seq<string>, x: string, b: seq<string>, y: string)
    requires a + [x] == b + [y]
    ensures a == b && x == y
  {
    assert a == (a + [x])[..|a|] && b == (b + [y])[..|b|];
    assert x == (a + [x])[|a|] && y == (b + [y])[|b|];
  }

  /** A walk along a path that already exists reuses its nodes and adds none. */
  lemma {:induction false} WalkExisting(t: Tree, from: nat, segments: seq<string>, leaf: nat)
    requires Valid(t) && from < |t.nodes| && leaf < |t.nodes|
    requires PathOf(t, leaf) == PathOf(t, from) + segments
    ensures Walk(t, from, segments) == (t, leaf)
    decreases |segments|
  {
    if |segments| == 0 {
      PathOfInjective(t, leaf, from);
    } else {
      var n := |segments| - 1;
      var front := segments[..n];
      assert leaf != 0;
      var p := t.nodes[leaf].parent.value;
      SnocParts(PathOf(t, from), segments);
      SnocInjective(PathOf(t, p), t.nodes[leaf].pathPart, PathOf(t, from) + front, segments[n]);
      WalkExisting(t, from, front, p);
      WalkAppend(t, from, front, [segments[n]]);
      assert [segments[n]][1..] == [];
    }
  }

  /** Walking the same segments again creates no node and reaches the same resource. */
  lemma WalkAgain(t: Tree, from: nat, segments: seq<string>)
    requires Valid(t) && from < |t.nodes|
    ensures var r := Walk(t, from, segments);
      Walk(r.0, from, segments) == r
  {
    var r := Walk(t, from, segments);
    WalkValid(t, from, segments);
    ExtendsPathOf(t, r.0, from);
    WalkExisting(r.0, from, segments, r.1);
  }

  /** A path that exists in a tree still leads to the same node after the tree has grown. */
  lemma ExistingAfterGrowth(t: Tree, later: Tree, from: nat, segments: seq<string>, leaf: nat)
    requires Valid(t) && Valid(later) && Extends(t, later)
    requires from < |t.nodes| && leaf < |t.nodes| && PathOf(t, leaf) == PathOf(t, from) + segments
    ensures from < |later.nodes| && Walk(later, from, segments) == (later, leaf)
  {
    ExtendsPathOf(t, later, from);
    ExtendsPathOf(t, later, leaf);
    WalkExisting(later, from, segments, leaf);
  }

  /**
   * Paths with a common prefix share its nodes: once `a + b` has been walked from the
   * root, however the tree grows afterwards, walking `a` again ends at the node `a`
   * reached first, and adds nothing.
   */
  lemma SharedPrefix(t: Tree, a: seq<string>, b: seq<string>, later: Tree)
    requires Valid(t) && Valid(later) && Extends(Walk(t, 0, a + b).0, later)
    ensures Walk(later, 0, a) == (later, Walk(t, 0, a).1)
  {
    var r := Walk(t, 0, a);
    WalkValid(t, 0, a);
    WalkAppend(t, 0, a, b);
    WalkValid(r.0, r.1, b);
    ExtendsTransitive(r.0, Walk(t, 0, a + b).0, later);
    assert [] + a == a;
    ExistingAfterGrowth(r.0, later, 0, a, r.1);
  }

  /** The empty path is the root itself. */
  lemma EmptyPathIsRoot(t: Tree)
    requires Valid(t)
    ensures Walk(t, 0, []) == (t, 0)
    ensures forall i | 0 <= i < |t.nodes| :: PathOf(t, i) == [] <==> i == 0
  {
    forall i | 0 <= i < |t.nodes| && PathOf(t, i) == []
      ensures i == 0
    {
      PathOfInjective(t, i, 0);
    }
  }

  /** No two resources are the child of the same parent for the same path part. */
  lemma UniqueChildren(t: Tree, i: nat, j: nat)
    requires Valid(t) && 0 < i < |t.nodes| && 0 < j < |t.nodes| && i != j
    ensures t.nodes[i] != t.nodes[j]
  {
  }
}
