/**
 * Entity clustering of scripts/entity_cluster.py: co-occurrence counts, pruning,
 * union-find with path halving, and cluster ids.
 */
module EntityClusters {

  type Entity = string
  type Edge = (Entity, Entity)

  // ----- Reachability -----

  ghost predicate Adjacent(edges: seq<Edge>, a: Entity, b: Entity) {
    (a, b) in edges || (b, a) in edges
  }

  ghost predicate IsPath(edges: seq<Edge>, p: seq<Entity>, a: Entity, b: Entity) {
    && p != [] && p[0] == a && p[|p| - 1] == b
    && forall i :: 0 <= i < |p| - 1 ==> Adjacent(edges, p[i], p[i + 1])
  }

  /** A path of edges joins a and b. */
  ghost predicate Connected(edges: seq<Edge>, a: Entity, b: Entity) {
    exists p :: IsPath(edges, p, a, b)
  }

  lemma ConnectedReflexive(edges: seq<Edge>, a: Entity)
    ensures Connected(edges, a, a)
  {
    assert IsPath(edges, [a], a, a);
  }

  lemma ConnectedSymmetric(edges: seq<Edge>, a: Entity, b: Entity)
    requires Connected(edges, a, b)
    ensures Connected(edges, b, a)
  {
    var p :| IsPath(edges, p, a, b);
    var q := seq(|p|, i requires 0 <= i < |p| => p[|p| - 1 - i]);
    forall i | 0 <= i < |q| - 1 ensures Adjacent(edges, q[i], q[i + 1]) {
      assert Adjacent(edges, p[|p| - 2 - i], p[|p| - 2 - i + 1]);
    }
    assert IsPath(edges, q, b, a);
  }

  lemma ConnectedTransitive(edges: seq<Edge>, a: Entity, b: Entity, c: Entity)
    requires Connected(edges, a, b) && Connected(edges, b, c)
    ensures Connected(edges, a, c)
  {
    var p :| IsPath(edges, p, a, b);
    var q :| IsPath(edges, q, b, c);
    var r := p + q[1..];
    forall i | 0 <= i < |r| - 1 ensures Adjacent(edges, r[i], r[i + 1]) {
      if i < |p| - 1 {
        assert Adjacent(edges, p[i], p[i + 1]);
      } else {
        assert r[i] == q[i - (|p| - 1)] && Adjacent(edges, q[i - (|p| - 1)], q[i - (|p| - 1) + 1]);
      }
    }
    assert IsPath(edges, r, a, c);
  }

  lemma ConnectedMore(edges: seq<Edge>, more: seq<Edge>, a: Entity, b: Entity)
    requires Connected(edges, a, b) && forall e :: e in edges ==> e in more
    ensures Connected(more, a, b)
  {
    var p :| IsPath(edges, p, a, b);
    forall i | 0 <= i < |p| - 1 ensures Adjacent(more, p[i], p[i + 1]) {
      assert Adjacent(edges, p[i], p[i + 1]);
    }
    assert IsPath(more, p, a, b);
  }

  lemma ConnectedByEdge(edges: seq<Edge>, a: Entity, b: Entity)
    requires (a, b) in edges
    ensures Connected(edges, a, b)
  {
    assert Adjacent(edges, [a, b][0], [a, b][1]);
    assert IsPath(edges, [a, b], a, b);
  }

  /** A colouring that is equal across every edge is equal along every path. */
  lemma {:induction false} PathKeepsColour(edges: seq<Edge>, colour: Links, p: seq<Entity>, a: Entity, b: Entity)
    requires IsPath(edges, p, a, b) && a in colour
    requires forall e :: e in edges ==> e.0 in colour && e.1 in colour && colour[e.0] == colour[e.1]
    ensures b in colour && colour[a] == colour[b]
    decreases |p|
  {
    if |p| > 1 {
      assert Adjacent(edges, p[0], p[1]);
      assert (p[0], p[1]) in edges || (p[1], p[0]) in edges;
      forall i | 0 <= i < |p[1..]| - 1 ensures Adjacent(edges, p[1..][i], p[1..][i + 1]) {
        assert Adjacent(edges, p[i + 1], p[i + 1 + 1]);
      }
      PathKeepsColour(edges, colour, p[1..], p[1], b);
    }
  }

  // ----- Union-find -----

  type Links = map<Entity, Entity>

  /** parent.get(x, x). */
  function ParentOf(parent: Links, x: Entity): Entity {
    if x in parent then parent[x] else x
  }

  /**
   * Parent links form a forest: every node has its root and a level that strictly falls
   * along the links, which is what makes find terminate.
   */
  ghost predicate Forest(parent: Links, root: Links, level: map<Entity, nat>) {
    && (forall x :: x in parent <==> x in root)
    && (forall x :: x in parent ==> x in level)
    && (forall x :: x in parent ==> ParentStep(parent, root, level, x))
    && (forall x :: x in root ==> root[x] in root && root[root[x]] == root[x])
  }

  ghost predicate ParentStep(parent: Links, root: Links, level: map<Entity, nat>, x: Entity)
    requires x in parent && x in root && x in level
  {
    && parent[x] in parent && parent[x] in root && parent[x] in level
    && root[parent[x]] == root[x]
    && (parent[x] == x <==> root[x] == x)
    && (parent[x] == x ==> level[x] == 0)
    && (parent[x] != x ==> level[parent[x]] < level[x])
  }

  lemma StepAt(parent: Links, root: Links, level: map<Entity, nat>, x: Entity)
    requires Forest(parent, root, level) && x in parent
    ensures x in root && x in level && ParentStep(parent, root, level, x)
    ensures root[x] in root && root[root[x]] == root[x]
  {
  }

  /** The forest conditions, established node by node. */
  lemma ForestByNode(parent: Links, root: Links, level: map<Entity, nat>)
    requires forall x :: x in parent <==> x in root
    requires forall x :: x in parent ==> x in level
    requires forall x :: x in parent ==> ParentStep(parent, root, level, x)
    requires forall x :: x in root ==> root[x] in root && root[root[x]] == root[x]
    ensures Forest(parent, root, level)
  {
  }

  /** Path halving keeps the forest and every root, and moves strictly closer to the root. */
  lemma HalvingKeepsForest(parent: Links, root: Links, level: map<Entity, nat>, x: Entity)
    requires Forest(parent, root, level) && ParentOf(parent, x) != x
    ensures var g := ParentOf(parent, ParentOf(parent, x));
      && Forest(parent[x := g], root, level)
      && x in root && x in level && g in root && root[g] == root[x] && g in level && level[g] < level[x]
  {
    hide Forest, ParentStep;
    HalvingCloser(parent, root, level, x);
    var parent' := parent[x := ParentOf(parent, ParentOf(parent, x))];
    Domains(parent, root, level);
    forall y | y in parent' ensures ParentStep(parent', root, level, y) {
      HalvingStepAt(parent, root, level, x, y);
    }
    ForestByNode(parent', root, level);
  }

  lemma Domains(parent: Links, root: Links, level: map<Entity, nat>)
    requires Forest(parent, root, level)
    ensures forall x :: x in parent <==> x in root
    ensures forall x :: x in parent ==> x in level
    ensures forall x :: x in root ==> root[x] in root && root[root[x]] == root[x]
  {
  }

  lemma HalvingCloser(parent: Links, root: Links, level: map<Entity, nat>, x: Entity)
    requires Forest(parent, root, level) && ParentOf(parent, x) != x
    ensures var g := ParentOf(parent, ParentOf(parent, x));
      x in parent && x in root && x in level && g in root && root[g] == root[x] && g in level && level[g] < level[x]
  {
    hide Forest;
    StepAt(parent, root, level, x);
    StepAt(parent, root, level, parent[x]);
  }

  lemma HalvingStepAt(parent: Links, root: Links, level: map<Entity, nat>, x: Entity, y: Entity)
    requires Forest(parent, root, level) && ParentOf(parent, x) != x && y in parent
    ensures y in root && y in level
    ensures ParentStep(parent[x := ParentOf(parent, ParentOf(parent, x))], root, level, y)
  {
    hide Forest;
    StepAt(parent, root, level, x);
    StepAt(parent, root, level, parent[x]);
    StepAt(parent, root, level, parent[parent[x]]);
    StepAt(parent, root, level, y);
  }

  /** The links after path halving from x: every other node of the path now skips its parent. */
  ghost function Halved(parent: Links, root: Links, level: map<Entity, nat>, x: Entity): Links
    requires Forest(parent, root, level)
    decreases if x in level then level[x] else 0
  {
    if ParentOf(parent, x) == x then parent
    else
      var g := ParentOf(parent, ParentOf(parent, x));
      HalvingKeepsForest(parent, root, level, x);
      Halved(parent[x := g], root, level, g)
  }

  /** Where find stops, it has reached the root. */
  lemma FixedPointIsRoot(parent: Links, root: Links, level: map<Entity, nat>, x: Entity)
    requires Forest(parent, root, level) && ParentOf(parent, x) == x && x in root
    ensures root[x] == x
  {
    StepAt(parent, root, level, x);
  }

  lemma AddKeepsForest(parent: Links, root: Links, level: map<Entity, nat>, a: Entity)
    requires Forest(parent, root, level) && a !in root
    ensures a !in parent && Forest(parent[a := a], root[a := a], level[a := 0])
  {
    hide Forest;
    Domains(parent, root, level);
    var parent', root', level' := parent[a := a], root[a := a], level[a := 0];
    forall y | y in parent' ensures ParentStep(parent', root', level', y) {
      if y != a {
        StepAt(parent, root, level, y);
      }
    }
    ForestByNode(parent', root', level');
  }

  ghost function Rerooted(root: Links, ra: Entity, rb: Entity): Links {
    map x | x in root :: if root[x] == ra then rb else root[x]
  }

  ghost function Deepened(root: Links, level: map<Entity, nat>, ra: Entity): map<Entity, nat>
    requires forall x :: x in root ==> x in level
  {
    map x | x in root :: if root[x] == ra then level[x] + 1 else level[x]
  }

  /** Hanging root ra under root rb replaces ra by rb as root and deepens the tree of ra. */
  lemma UnionKeepsForest(parent: Links, root: Links, level: map<Entity, nat>, ra: Entity, rb: Entity)
    requires Forest(parent, root, level) && ra in root && rb in root
    requires root[ra] == ra && root[rb] == rb && ra != rb
    ensures Forest(parent[ra := rb], Rerooted(root, ra, rb), Deepened(root, level, ra))
  {
    hide Forest, ParentStep, Rerooted, Deepened;
    Domains(parent, root, level);
    var parent', root', level' := parent[ra := rb], Rerooted(root, ra, rb), Deepened(root, level, ra);
    SameNodes(root, level, ra, rb);
    forall x | x in root' ensures root'[x] in root' && root'[root'[x]] == root'[x] {
      RerootedAt(root, ra, rb, x);
    }
    forall y | y in parent' ensures ParentStep(parent', root', level', y) {
      UnionStepAt(parent, root, level, ra, rb, y);
    }
    ForestByNode(parent', root', level');
  }

  lemma SameNodes(root: Links, level: map<Entity, nat>, ra: Entity, rb: Entity)
    requires forall x :: x in root ==> x in level
    ensures Rerooted(root, ra, rb).Keys == root.Keys == Deepened(root, level, ra).Keys
  {
  }

  lemma RerootedAt(root: Links, ra: Entity, rb: Entity, x: Entity)
    requires x in root && root[x] in root && root[root[x]] == root[x]
    requires rb in root && root[rb] == rb && ra != rb
    ensures var root' := Rerooted(root, ra, rb);
      x in root' && root'[x] in root' && root'[root'[x]] == root'[x]
  {
  }

  lemma UnionStepAt(parent: Links, root: Links, level: map<Entity, nat>, ra: Entity, rb: Entity, y: Entity)
    requires Forest(parent, root, level) && ra in root && rb in root && y in parent
    requires root[ra] == ra && root[rb] == rb && ra != rb
    ensures forall x :: x in root ==> x in level
    ensures y in Rerooted(root, ra, rb) && y in Deepened(root, level, ra)
    ensures ParentStep(parent[ra := rb], Rerooted(root, ra, rb), Deepened(root, level, ra), y)
  {
    hide Forest;
    Domains(parent, root, level);
    StepAt(parent, root, level, ra);
    StepAt(parent, root, level, rb);
    StepAt(parent, root, level, y);
  }

  /** The parent dictionary; ghost fields record the roots and levels of its nodes. */
  class UnionFind {
    var parent: Links
    ghost var root: Links
    ghost var level: map<Entity, nat>

    ghost predicate Valid()
      reads this
    {
      Forest(parent, root, level)
    }

    constructor ()
      ensures Valid() && parent == map[] && root == map[]
    {
      parent, root, level := map[], map[], map[];
    }

    /** find with path halving: no node changes its root. */
    method Find(start: Entity) returns (x: Entity)
      requires Valid()
      modifies this`parent
      ensures Valid()
      ensures x == if start in root then root[start] else start
      ensures parent == Halved(old(parent), root, level, start)
    {
      hide Forest;
      x := start;
      while ParentOf(parent, x) != x
        invariant Valid() && Halved(parent, root, level, x) == Halved(old(parent), root, level, start)
        invariant start in root ==> x in root && root[x] == root[start]
        invariant start !in root ==> x == start
        decreases if x in level then level[x] else 0
      {
        HalvingKeepsForest(parent, root, level, x);
        parent := parent[x := ParentOf(parent, ParentOf(parent, x))];
        x := parent[x];
      }
      if x in root {
        FixedPointIsRoot(parent, root, level, x);
      }
    }

    /** `if a not in parent: parent[a] = a`. */
    method Add(a: Entity)
      requires Valid()
      modifies this
      ensures Valid()
      ensures root == if a in old(root) then old(root) else old(root)[a := a]
    {
      if a !in parent {
        AddKeepsForest(parent, root, level, a);
        parent, root, level := parent[a := a], root[a := a], level[a := 0];
      }
    }

    /** union: the tree of a is hung under the root of b. */
    method Union(a: Entity, b: Entity)
      requires Valid() && a in root && b in root
      modifies this
      ensures Valid()
      ensures root == Rerooted(old(root), old(root)[a], old(root)[b])
    {
      hide Forest;
      RootsAreRoots(parent, root, level, a);
      RootsAreRoots(parent, root, level, b);
      var ra := Find(a);
      var rb := Find(b);
      if ra != rb {
        UnionKeepsForest(parent, root, level, ra, rb);
        LevelsKnown(parent, root, level);
        parent, root, level := parent[ra := rb], Rerooted(root, ra, rb), Deepened(root, level, ra);
      } else {
        assert Rerooted(root, ra, rb) == root;
      }
    }
  }

  lemma RootsAreRoots(parent: Links, root: Links, level: map<Entity, nat>, a: Entity)
    requires Forest(parent, root, level) && a in root
    ensures root[a] in root && root[root[a]] == root[a]
  {
  }

  lemma LevelsKnown(parent: Links, root: Links, level: map<Entity, nat>)
    requires Forest(parent, root, level)
    ensures forall x :: x in root ==> x in level
  {
  }

  /** Roots agree exactly on connected nodes of the edges handled so far. */
  ghost predicate Represents(root: Links, edges: seq<Edge>) {
    && (forall e :: e in edges ==> e.0 in root && e.1 in root && root[e.0] == root[e.1])
    && (forall x :: x in root ==> Connected(edges, x, root[x]))
    && (forall x :: x in root ==> Touched(edges, x))
  }

  /** The node is an end point of some edge. */
  ghost predicate Touched(edges: seq<Edge>, x: Entity) {
    exists e :: e in edges && (x == e.0 || x == e.1)
  }

  lemma SameRootIffConnected(root: Links, edges: seq<Edge>, a: Entity, b: Entity)
    requires Represents(root, edges) && a in root && b in root
    ensures root[a] == root[b] <==> Connected(edges, a, b)
  {
    if root[a] == root[b] {
      ConnectedSymmetric(edges, b, root[b]);
      ConnectedTransitive(edges, a, root[a], b);
    }
    if Connected(edges, a, b) {
      var p :| IsPath(edges, p, a, b);
      PathKeepsColour(edges, root, p, a, b);
    }
  }

  ghost function WithNode(root: Links, a: Entity): Links {
    if a in root then root else root[a := a]
  }

  /** Roots after adding the end points of an edge and merging them. */
  ghost function Linked(root: Links, e: Edge): Links {
    var r := WithNode(WithNode(root, e.0), e.1);
    Rerooted(r, r[e.0], r[e.1])
  }

  lemma LinkRepresents(root: Links, edges: seq<Edge>, e: Edge)
    requires Represents(root, edges)
    ensures Represents(Linked(root, e), edges + [e])
  {
    var more := edges + [e];
    var r1 := WithNode(WithNode(root, e.0), e.1);
    assert e in more && forall f :: f in edges ==> f in more;
    ConnectedByEdge(more, e.0, e.1);
    forall x | x in r1 ensures Connected(more, x, r1[x]) {
      hide Connected;
      if x in root {
        ConnectedMore(edges, more, x, root[x]);
      } else {
        ConnectedReflexive(more, x);
      }
    }
    forall x | x in r1 ensures Touched(more, x) {
      if x in root {
        assert Touched(edges, x);
      }
    }
    MergeRoots(r1, more, e);
  }

  lemma MergeRoots(r: Links, edges: seq<Edge>, e: Edge)
    requires e.0 in r && e.1 in r && Connected(edges, e.0, e.1)
    requires forall f :: f in edges && f != e ==> f.0 in r && f.1 in r && r[f.0] == r[f.1]
    requires forall x :: x in r ==> Connected(edges, x, r[x]) && Touched(edges, x)
    ensures Represents(Rerooted(r, r[e.0], r[e.1]), edges)
  {
    hide Connected, Touched;
    var merged := Rerooted(r, r[e.0], r[e.1]);
    forall x | x in merged ensures Connected(edges, x, merged[x]) {
      if r[x] == r[e.0] {
        ConnectedSymmetric(edges, e.0, r[e.0]);
        ConnectedTransitive(edges, x, r[x], e.0);
        ConnectedTransitive(edges, x, e.0, e.1);
        ConnectedTransitive(edges, x, e.1, r[e.1]);
      }
    }
  }

  /** The nodes of a graph. */
  ghost function Nodes(edges: seq<Edge>): set<Entity> {
    (set e | e in edges :: e.0) + (set e | e in edges :: e.1)
  }

  /**
   * connected_components: two nodes get the same id exactly if a path joins them,
   * and the ids are 0 .. k-1 for k different roots.
   */
  method ConnectedComponents(edges: seq<Edge>) returns (result: map<Entity, nat>, ghost k: nat)
    ensures result.Keys == Nodes(edges)
    ensures forall a, b :: a in result && b in result ==> (result[a] == result[b] <==> Connected(edges, a, b))
    ensures forall id :: id in result.Values <==> 0 <= id < k
  {
    hide Connected, Touched, Forest;
    var uf := new UnionFind();
    NothingRepresented();
    for i := 0 to |edges|
      invariant fresh(uf) && uf.Valid() && Represents(uf.root, edges[..i])
    {
      hide Represents;
      ghost var before := uf.root;
      var (a, b) := edges[i];
      uf.Add(a);
      uf.Add(b);
      uf.Union(a, b);
      LinkRepresents(before, edges[..i], edges[i]);
      assert edges[..i + 1] == edges[..i] + [edges[i]];
    }
    assert edges[..|edges|] == edges;
    ghost var root := uf.root;
    result, k := AssignIds(uf);
    forall a, b | a in result && b in result ensures result[a] == result[b] <==> Connected(edges, a, b) {
      SameRootIffConnected(root, edges, a, b);
    }
    NodesAreKeys(root, edges);
  }

  lemma NothingRepresented()
    ensures Represents(map[], [])
  {
  }

  /** Every id below n is used. */
  ghost predicate AllUsed(result: map<Entity, nat>, n: nat) {
    forall id :: 0 <= id < n ==> id in result.Values
  }

  lemma UsedAfterUpdate(result: map<Entity, nat>, n: nat, node: Entity, id: nat)
    requires AllUsed(result, n) && node !in result && id <= n
    ensures AllUsed(result[node := id], if id == n then n + 1 else n)
  {
    var next := result[node := id];
    forall v | 0 <= v < (if id == n then n + 1 else n) ensures v in next.Values {
      if v == n {
        assert next[node] == v;
      } else {
        assert v in result.Values;
        var x :| x in result && result[x] == v;
        assert next[x] == v;
      }
    }
  }

  /** Ids are numbered in the order in which their roots are first met. */
  ghost predicate Numbered(rootToId: map<Entity, nat>, cid: nat) {
    && (forall r :: r in rootToId ==> rootToId[r] < cid)
    && (forall r, s :: r in rootToId && s in rootToId && rootToId[r] == rootToId[s] ==> r == s)
  }

  /** The loop over the parent dictionary, whose links find shortens on the way. */
  method AssignIds(uf: UnionFind) returns (result: map<Entity, nat>, cid: nat)
    requires uf.Valid()
    modifies uf`parent
    ensures forall x :: x in result <==> x in uf.root
    ensures forall x, y :: x in result && y in result ==> (result[x] == result[y] <==> uf.root[x] == uf.root[y])
    ensures forall id :: id in result.Values <==> 0 <= id < cid
  {
    hide Forest;
    var rootToId: map<Entity, nat> := map[];
    result := map[];
    cid := 0;
    ghost var root := uf.root;
    Domains(uf.parent, root, uf.level);
    var todo := uf.parent.Keys;
    while todo != {}
      invariant uf.Valid() && uf.root == root
      invariant forall x :: x in root <==> x in todo || x in result
      invariant forall x :: x in todo ==> x !in result
      invariant forall x :: x in result ==> root[x] in rootToId && result[x] == rootToId[root[x]]
      invariant Numbered(rootToId, cid)
      invariant AllUsed(result, cid)
      decreases |todo|
    {
      hide AllUsed;
      var node :| node in todo;
      todo := todo - {node};
      var r := uf.Find(node);
      if r !in rootToId {
        NumberNext(rootToId, cid, r);
        UsedAfterUpdate(result, cid, node, cid);
        rootToId := rootToId[r := cid];
        cid := cid + 1;
      } else {
        UsedAfterUpdate(result, cid, node, rootToId[r]);
      }
      result := result[node := rootToId[r]];
    }
    IdsDistinguish(root, result, rootToId, cid);
  }

  lemma NumberNext(rootToId: map<Entity, nat>, cid: nat, r: Entity)
    requires Numbered(rootToId, cid) && r !in rootToId
    ensures Numbered(rootToId[r := cid], cid + 1)
  {
  }

  lemma IdsDistinguish(root: Links, result: map<Entity, nat>, rootToId: map<Entity, nat>, cid: nat)
    requires Numbered(rootToId, cid) && AllUsed(result, cid)
    requires forall x :: x in result ==> x in root && root[x] in rootToId && result[x] == rootToId[root[x]]
    ensures forall x, y :: x in result && y in result ==> (result[x] == result[y] <==> root[x] == root[y])
    ensures forall id :: id in result.Values <==> 0 <= id < cid
  {
  }

  lemma NodesAreKeys(root: Links, edges: seq<Edge>)
    requires Represents(root, edges)
    ensures root.Keys == Nodes(edges)
  {
    forall x | x in root ensures x in Nodes(edges) {
      assert Touched(edges, x);
      var e :| e in edges && (x == e.0 || x == e.1);
    }
  }
}
