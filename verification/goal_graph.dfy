/** The goal dependency graph (`GoalGraph` in goals/goals_script.js) together with
    the two selection rules of its visualizer (neighbour highlighting and search
    highlighting) and the add-goal form handler.

    Nodes live in an id-keyed map; `order` is the key order of the JavaScript
    `Map`, which iterates in insertion order. A node's `children`/`parents` are
    id lists, and the graph keeps a separate list of directed links. The object
    references that a JavaScript link holds are modelled by the two endpoint ids. */
module GoalGraphs {
  import opened Common

  datatype GoalNode = GoalNode(
    id: string,
    description: string,
    category: string,
    children: seq<string>,
    parents: seq<string>)

  /** A directed link `(source id, target id)`. */
  type Link = (string, string)

  datatype CategoryStyle = CategoryStyle(color: string, name: string)

  /** The fixed category table of the graph. */
  const Categories: map<string, CategoryStyle> := map[
    "personal" := CategoryStyle("#7289da", "Personal"),
    "work" := CategoryStyle("#43b581", "Work"),
    "learning" := CategoryStyle("#faa61a", "Learning"),
    "health" := CategoryStyle("#ed4245", "Health"),
    "financial" := CategoryStyle("#9b59b6", "Financial")]

  /** The category `addNode` uses when none is passed. */
  function CategoryOrDefault(category: Option<string>): string {
    if category.Some? then category.value else "personal"
  }

  // ---------------------------------------------------------------------------
  // Links and the adjacency they induce
  // ---------------------------------------------------------------------------

  /** Targets of the links leaving `a`, in link order. */
  function Targets(links: seq<Link>, a: string): seq<string> {
    if links == [] then []
    else
      var last := links[|links| - 1];
      Targets(links[..|links| - 1], a) + (if last.0 == a then [last.1] else [])
  }

  /** Sources of the links entering `b`, in link order. */
  function Sources(links: seq<Link>, b: string): seq<string> {
    if links == [] then []
    else
      var last := links[|links| - 1];
      Sources(links[..|links| - 1], b) + (if last.1 == b then [last.0] else [])
  }

  /** `links.filter(link => link.source.id !== x && link.target.id !== x)`. */
  function DropTouching(links: seq<Link>, x: string): (r: seq<Link>)
    ensures forall l :: l in r <==> l in links && l.0 != x && l.1 != x
  {
    if links == [] then []
    else
      var last := links[|links| - 1];
      DropTouching(links[..|links| - 1], x) + (if last.0 != x && last.1 != x then [last] else [])
  }

  /** A node's adjacency lists with every occurrence of `x` filtered out. */
  function Detached(n: GoalNode, x: string): GoalNode {
    n.(children := RemoveAll(n.children, x), parents := RemoveAll(n.parents, x))
  }

  /** The graph invariant: ids are unique keys, `order` lists exactly the keys,
      links are distinct and join existing nodes, and every node's `children`
      and `parents` are exactly the targets and sources of its links, in link
      order. */
  ghost predicate Wellformed(nodes: map<string, GoalNode>, order: seq<string>, links: seq<Link>) {
    && (forall k :: k in nodes ==> nodes[k].id == k)
    && NoDuplicates(order)
    && (forall k :: k in order <==> k in nodes)
    && NoDuplicates(links)
    && (forall l :: l in links ==> l.0 in nodes && l.1 in nodes)
    && (forall k :: k in nodes ==> nodes[k].children == Targets(links, k) && nodes[k].parents == Sources(links, k))
  }

  /** `b` is listed as a child of `a` exactly when the link `(a, b)` exists,
      and `a` as a parent of `b` likewise. */
  lemma {:induction false} AdjacencyMembership(links: seq<Link>, a: string, b: string)
    ensures b in Targets(links, a) <==> (a, b) in links
    ensures a in Sources(links, b) <==> (a, b) in links
  {
    if links != [] {
      var init := links[..|links| - 1];
      AdjacencyMembership(init, a, b);
      assert links == init + [links[|links| - 1]];
    }
  }

  /** Each link `(a, b)` accounts for exactly as many `b`s in `a`'s children
      (and `a`s in `b`'s parents) as there are copies of the link. */
  lemma {:induction false} AdjacencyCount(links: seq<Link>, a: string, b: string)
    ensures multiset(Targets(links, a))[b] == multiset(links)[(a, b)]
    ensures multiset(Sources(links, b))[a] == multiset(links)[(a, b)]
  {
    if links != [] {
      var init, last := links[..|links| - 1], links[|links| - 1];
      AdjacencyCount(init, a, b);
      assert links == init + [last];
      AdjacencyCountStep(init, last, a, b);
    }
  }

  lemma AdjacencyCountStep(init: seq<Link>, last: Link, a: string, b: string)
    requires multiset(Targets(init, a))[b] == multiset(init)[(a, b)]
    requires multiset(Sources(init, b))[a] == multiset(init)[(a, b)]
    ensures multiset(Targets(init + [last], a))[b] == multiset(init + [last])[(a, b)]
    ensures multiset(Sources(init + [last], b))[a] == multiset(init + [last])[(a, b)]
  {
    AdjacencyAppend(init, last, a);
    AdjacencyAppend(init, last, b);
  }

  /** Appending a link extends exactly its source's targets and its target's sources. */
  lemma AdjacencyAppend(links: seq<Link>, l: Link, k: string)
    ensures Targets(links + [l], k) == Targets(links, k) + (if l.0 == k then [l.1] else [])
    ensures Sources(links + [l], k) == Sources(links, k) + (if l.1 == k then [l.0] else [])
  {
    assert (links + [l])[..|links|] == links;
  }

  /** Dropping the links that touch `x` removes `x`, and only `x`, from the
      adjacency of every other node. */
  lemma {:induction false} AdjacencyAfterDrop(links: seq<Link>, x: string, k: string)
    requires k != x
    ensures Targets(DropTouching(links, x), k) == RemoveAll(Targets(links, k), x)
    ensures Sources(DropTouching(links, x), k) == RemoveAll(Sources(links, k), x)
  {
    if links != [] {
      AdjacencyAfterDrop(links[..|links| - 1], x, k);
      AdjacencyAfterDropStep(links, x, k);
    }
  }

  /** `AdjacencyAfterDrop` for `links` from the claim for all but its last link. */
  lemma AdjacencyAfterDropStep(links: seq<Link>, x: string, k: string)
    requires k != x && links != []
    requires var init := links[..|links| - 1];
      && Targets(DropTouching(init, x), k) == RemoveAll(Targets(init, k), x)
      && Sources(DropTouching(init, x), k) == RemoveAll(Sources(init, k), x)
    ensures Targets(DropTouching(links, x), k) == RemoveAll(Targets(links, k), x)
    ensures Sources(DropTouching(links, x), k) == RemoveAll(Sources(links, k), x)
  {
    TargetsAfterDropStep(links, x, k);
    SourcesAfterDropStep(links, x, k);
  }

  lemma TargetsAfterDropStep(links: seq<Link>, x: string, k: string)
    requires k != x && links != []
    requires var init := links[..|links| - 1];
      Targets(DropTouching(init, x), k) == RemoveAll(Targets(init, k), x)
    ensures Targets(DropTouching(links, x), k) == RemoveAll(Targets(links, k), x)
  {
    var init, last := links[..|links| - 1], links[|links| - 1];
    var t := if last.0 == k then [last.1] else [];
    var d := DropTouching(init, x);
    assert Targets(links, k) == Targets(init, k) + t;
    RemoveAllAppend(Targets(init, k), t, x);
    if last.0 != x && last.1 != x {
      assert DropTouching(links, x) == d + [last];
      AdjacencyAppend(d, last, k);
      assert RemoveAll(t, x) == t;
    } else {
      assert DropTouching(links, x) == d + [];
      EmptyBack(d);
      assert RemoveAll(t, x) == [];
      EmptyBack(Targets(d, k));
    }
  }

  lemma SourcesAfterDropStep(links: seq<Link>, x: string, k: string)
    requires k != x && links != []
    requires var init := links[..|links| - 1];
      Sources(DropTouching(init, x), k) == RemoveAll(Sources(init, k), x)
    ensures Sources(DropTouching(links, x), k) == RemoveAll(Sources(links, k), x)
  {
    var init, last := links[..|links| - 1], links[|links| - 1];
    var t := if last.1 == k then [last.0] else [];
    var d := DropTouching(init, x);
    assert Sources(links, k) == Sources(init, k) + t;
    RemoveAllAppend(Sources(init, k), t, x);
    if last.0 != x && last.1 != x {
      assert DropTouching(links, x) == d + [last];
      AdjacencyAppend(d, last, k);
      assert RemoveAll(t, x) == t;
    } else {
      assert DropTouching(links, x) == d + [];
      EmptyBack(d);
      assert RemoveAll(t, x) == [];
      EmptyBack(Sources(d, k));
    }
  }

  /** A node no link touches has empty adjacency lists. */
  lemma Unlinked(links: seq<Link>, k: string)
    requires forall l :: l in links ==> l.0 != k && l.1 != k
    ensures Targets(links, k) == [] && Sources(links, k) == []
  {
    var t, s := Targets(links, k), Sources(links, k);
    if t != [] {
      AdjacencyMembership(links, k, t[0]);
    }
    if s != [] {
      AdjacencyMembership(links, s[0], k);
    }
  }

  /** Dropping links keeps them distinct. */
  lemma {:induction false} DropTouchingNoDuplicates(links: seq<Link>, x: string)
    requires NoDuplicates(links)
    ensures NoDuplicates(DropTouching(links, x))
  {
    if links != [] {
      var init := links[..|links| - 1];
      assert NoDuplicates(init);
      DropTouchingNoDuplicates(init, x);
      assert links[|links| - 1] !in init;
    }
  }

  // ---------------------------------------------------------------------------
  // Invariant I1 and the highlight rule
  // ---------------------------------------------------------------------------

  /** Invariant I1: every link `(a, b)` is matched by exactly one `b` in
      `a.children` and exactly one `a` in `b.parents`. */
  lemma LinkMatchesOneEntry(nodes: map<string, GoalNode>, order: seq<string>, links: seq<Link>, l: Link)
    requires Wellformed(nodes, order, links)
    requires l in links
    ensures multiset(nodes[l.0].children)[l.1] == 1
    ensures multiset(nodes[l.1].parents)[l.0] == 1
  {
    AdjacencyCount(links, l.0, l.1);
    DistinctCountsOne(links, l);
  }

  lemma {:induction false} DistinctCountsOne<T>(s: seq<T>, x: T)
    requires NoDuplicates(s) && x in s
    ensures multiset(s)[x] == 1
  {
    if s[0] == x {
      assert x !in s[1..];
      assert s == [s[0]] + s[1..];
    } else {
      DistinctCountsOne(s[1..], x);
      assert s == [s[0]] + s[1..];
    }
  }

  /** The visualizer's node filter in `highlightConnections`. */
  predicate NodeHighlighted(d: GoalNode, nodeId: string) {
    nodeId in d.parents || nodeId in d.children || d.id == nodeId
  }

  /** The visualizer's link filter in `highlightConnections`. */
  predicate LinkHighlighted(l: Link, nodeId: string) {
    l.0 == nodeId || l.1 == nodeId
  }

  /** On a well-formed graph, highlighting `n` marks exactly `n`, its children and
      its parents, and exactly the links between `n` and those nodes. */
  lemma HighlightIsNeighbourhood(nodes: map<string, GoalNode>, order: seq<string>, links: seq<Link>, n: string)
    requires Wellformed(nodes, order, links)
    ensures forall k :: k in nodes ==>
      (NodeHighlighted(nodes[k], n) <==>
        k == n || (n in nodes && (k in nodes[n].children || k in nodes[n].parents)))
    ensures forall l :: l in links ==>
      (LinkHighlighted(l, n) <==>
        n in nodes && ((l.0 == n && l.1 in nodes[n].children) || (l.1 == n && l.0 in nodes[n].parents)))
  {
    forall k | k in nodes
      ensures NodeHighlighted(nodes[k], n) <==>
        k == n || (n in nodes && (k in nodes[n].children || k in nodes[n].parents))
    {
      AdjacencyMembership(links, n, k);
      AdjacencyMembership(links, k, n);
    }
    forall l | l in links
      ensures LinkHighlighted(l, n) <==>
        n in nodes && ((l.0 == n && l.1 in nodes[n].children) || (l.1 == n && l.0 in nodes[n].parents))
    {
      AdjacencyMembership(links, l.0, l.1);
    }
  }

  // ---------------------------------------------------------------------------
  // Search
  // ---------------------------------------------------------------------------

  /** The case-insensitive match of `search`, with the query already lowered. */
  predicate NodeMatches(n: GoalNode, lowerQuery: string) {
    Contains(Lower(n.id), lowerQuery) || Contains(Lower(n.description), lowerQuery)
  }

  /** The nodes of `keys` (in that order) that match the lowered query. */
  function Matching(nodes: map<string, GoalNode>, keys: seq<string>, lowerQuery: string): seq<GoalNode>
    requires forall k :: k in keys ==> k in nodes
  {
    if keys == [] then []
    else
      var k := keys[|keys| - 1];
      Matching(nodes, keys[..|keys| - 1], lowerQuery) + (if NodeMatches(nodes[k], lowerQuery) then [nodes[k]] else [])
  }

  /** All nodes in insertion order (`getAllNodes`). */
  function AllNodes(nodes: map<string, GoalNode>, keys: seq<string>): (r: seq<GoalNode>)
    requires forall k :: k in keys ==> k in nodes
    ensures |r| == |keys|
    ensures forall i :: 0 <= i < |keys| ==> r[i] == nodes[keys[i]]
  {
    if keys == [] then [] else AllNodes(nodes, keys[..|keys| - 1]) + [nodes[keys[|keys| - 1]]]
  }

  /** With distinct keys naming nodes that carry their own ids, every node of
      `keys` is listed, and none twice. */
  lemma AllNodesOnce(nodes: map<string, GoalNode>, keys: seq<string>)
    requires forall k :: k in keys ==> k in nodes
    requires forall k :: k in nodes ==> nodes[k].id == k
    requires NoDuplicates(keys)
    ensures forall k :: k in keys ==> nodes[k] in AllNodes(nodes, keys)
    ensures NoDuplicates(AllNodes(nodes, keys))
  {
    var r := AllNodes(nodes, keys);
    forall k | k in keys
      ensures nodes[k] in r
    {
      var i :| 0 <= i < |keys| && keys[i] == k;
      assert r[i] == nodes[k];
    }
    forall i, j | 0 <= i < j < |r|
      ensures r[i] != r[j]
    {
      assert r[i].id == keys[i] && r[j].id == keys[j];
    }
  }

  /** In a well-formed graph the links are exactly the child relation of the
      nodes, and each is stored once. */
  lemma LinksAreChildren(nodes: map<string, GoalNode>, order: seq<string>, links: seq<Link>)
    requires Wellformed(nodes, order, links)
    ensures forall l :: l in links <==> l.0 in nodes && l.1 in nodes[l.0].children
    ensures NoDuplicates(links)
  {
    forall l: Link
      ensures l in links <==> l.0 in nodes && l.1 in nodes[l.0].children
    {
      AdjacencyMembership(links, l.0, l.1);
    }
  }

  /** A search result is a node of the graph that matches the query, every
      matching node is a result, and results are distinct. */
  lemma {:induction false} MatchingCharacterized(nodes: map<string, GoalNode>, keys: seq<string>, q: string)
    requires forall k :: k in keys ==> k in nodes
    requires forall k :: k in nodes ==> nodes[k].id == k
    requires NoDuplicates(keys)
    ensures forall n :: n in Matching(nodes, keys, q) <==> n.id in keys && nodes[n.id] == n && NodeMatches(n, q)
    ensures NoDuplicates(Matching(nodes, keys, q))
  {
    if keys != [] {
      var init := keys[..|keys| - 1];
      var k := keys[|keys| - 1];
      assert keys == init + [k];
      assert NoDuplicates(init);
      MatchingCharacterized(nodes, init, q);
      assert k !in init;
    }
  }

  /** Searching for the empty query returns every node, in insertion order. */
  lemma {:induction false} EmptyQueryMatchesAll(nodes: map<string, GoalNode>, keys: seq<string>)
    requires forall k :: k in keys ==> k in nodes
    ensures Matching(nodes, keys, "") == AllNodes(nodes, keys)
  {
    if keys != [] {
      EmptyQueryMatchesAll(nodes, keys[..|keys| - 1]);
      ContainsEmpty(Lower(nodes[keys[|keys| - 1]].id));
    }
  }

  /** The visualizer's search filter: `d` is highlighted when some result has its id. */
  predicate SearchHighlighted(results: seq<GoalNode>, d: GoalNode) {
    exists r :: r in results && r.id == d.id
  }

  /** The visualizer highlights exactly the graph's nodes that match the query. */
  lemma SearchHighlightsMatches(nodes: map<string, GoalNode>, order: seq<string>, links: seq<Link>, q: string, d: GoalNode)
    requires Wellformed(nodes, order, links)
    requires d in nodes.Values
    ensures SearchHighlighted(Matching(nodes, order, Lower(q)), d) <==> NodeMatches(d, Lower(q))
  {
    MatchingCharacterized(nodes, order, Lower(q));
    if NodeMatches(d, Lower(q)) {
      assert d in Matching(nodes, order, Lower(q));
    }
  }

  // ---------------------------------------------------------------------------
  // Node removal
  // ---------------------------------------------------------------------------

  /** The graph's nodes after removing `id`: every other node detached from it. */
  function Removed(nodes: map<string, GoalNode>, id: string): (r: map<string, GoalNode>)
    ensures r.Keys == nodes.Keys - {id}
  {
    map k | k in nodes.Keys - {id} :: Detached(nodes[k], id)
  }

  /** The first loop of `removeNode`: each listed parent that exists gets `id`
      filtered out of its `children`. */
  method StripFromChildren(nodes: map<string, GoalNode>, ps: seq<string>, id: string)
    returns (r: map<string, GoalNode>)
    ensures r.Keys == nodes.Keys
    ensures forall k :: k in r ==>
      r[k] == (if k in ps then nodes[k].(children := RemoveAll(nodes[k].children, id)) else nodes[k])
  {
    r := nodes;
    var i := 0;
    while i < |ps|
      invariant 0 <= i <= |ps|
      invariant r.Keys == nodes.Keys
      invariant forall k :: k in r ==>
        r[k] == (if k in ps[..i] then nodes[k].(children := RemoveAll(nodes[k].children, id)) else nodes[k])
    {
      var p := ps[i];
      if p in r {
        RemoveAllIdempotent(nodes[p].children, id);
        r := r[p := r[p].(children := RemoveAll(r[p].children, id))];
      }
      assert ps[..i + 1] == ps[..i] + [p];
      i := i + 1;
    }
    assert ps[..|ps|] == ps;
  }

  /** The second loop of `removeNode`: each listed child that exists gets `id`
      filtered out of its `parents`. */
  method StripFromParents(nodes: map<string, GoalNode>, cs: seq<string>, id: string)
    returns (r: map<string, GoalNode>)
    ensures r.Keys == nodes.Keys
    ensures forall k :: k in r ==>
      r[k] == (if k in cs then nodes[k].(parents := RemoveAll(nodes[k].parents, id)) else nodes[k])
  {
    r := nodes;
    var i := 0;
    while i < |cs|
      invariant 0 <= i <= |cs|
      invariant r.Keys == nodes.Keys
      invariant forall k :: k in r ==>
        r[k] == (if k in cs[..i] then nodes[k].(parents := RemoveAll(nodes[k].parents, id)) else nodes[k])
    {
      var c := cs[i];
      if c in r {
        RemoveAllIdempotent(nodes[c].parents, id);
        r := r[c := r[c].(parents := RemoveAll(r[c].parents, id))];
      }
      assert cs[..i + 1] == cs[..i] + [c];
      i := i + 1;
    }
    assert cs[..|cs|] == cs;
  }

  /** On a well-formed graph, visiting only the node's parents and children
      detaches every other node from it. */
  lemma RemovalIsDetach(nodes: map<string, GoalNode>, order: seq<string>, links: seq<Link>, id: string,
                        result: map<string, GoalNode>)
    requires Wellformed(nodes, order, links) && id in nodes
    requires result.Keys == nodes.Keys - {id}
    requires forall k :: k in result ==>
      var n1 := if k in nodes[id].parents then nodes[k].(children := RemoveAll(nodes[k].children, id)) else nodes[k];
      result[k] == (if k in nodes[id].children then n1.(parents := RemoveAll(n1.parents, id)) else n1)
    ensures result == Removed(nodes, id)
  {
    forall k | k in result
      ensures result[k] == Detached(nodes[k], id)
    {
      AdjacencyMembership(links, k, id);
      AdjacencyMembership(links, id, k);
      if k !in nodes[id].parents {
        RemoveAllAbsent(nodes[k].children, id);
      }
      if k !in nodes[id].children {
        RemoveAllAbsent(nodes[k].parents, id);
      }
    }
  }

  /** Removing a node from a well-formed graph leaves it well-formed. */
  lemma RemovalKeepsWellformed(nodes: map<string, GoalNode>, order: seq<string>, links: seq<Link>, id: string)
    requires Wellformed(nodes, order, links)
    ensures Wellformed(Removed(nodes, id), RemoveAll(order, id), DropTouching(links, id))
  {
    var r := Removed(nodes, id);
    var dropped := DropTouching(links, id);
    forall k | k in r
      ensures r[k].children == Targets(dropped, k) && r[k].parents == Sources(dropped, k)
    {
      AdjacencyAfterDrop(links, id, k);
    }
    DropTouchingNoDuplicates(links, id);
    RemoveAllNoDuplicates(order, id);
  }

  /** The two map updates of `addLink` (the target is read after the source
      is written, so a self-loop gets both entries) append to exactly the
      source's children and the target's parents. */
  lemma LinkUpdate(nodes: map<string, GoalNode>, a: string, b: string)
    requires a in nodes && b in nodes
    ensures var n1 := nodes[a := nodes[a].(children := nodes[a].children + [b])];
      var n2 := n1[b := n1[b].(parents := n1[b].parents + [a])];
      && n2.Keys == nodes.Keys
      && forall k :: k in n2 ==> n2[k] == nodes[k].(
           children := nodes[k].children + (if k == a then [b] else []),
           parents := nodes[k].parents + (if k == b then [a] else []))
  {
  }

  /** Adding a new link between existing nodes, and appending its endpoints to
      the two adjacency lists, keeps the graph well-formed. */
  lemma LinkKeepsWellformed(nodes: map<string, GoalNode>, order: seq<string>, links: seq<Link>, a: string, b: string,
                            result: map<string, GoalNode>)
    requires Wellformed(nodes, order, links)
    requires a in nodes && b in nodes && (a, b) !in links
    requires result.Keys == nodes.Keys
    requires forall k :: k in result ==> result[k] == nodes[k].(
      children := nodes[k].children + (if k == a then [b] else []),
      parents := nodes[k].parents + (if k == b then [a] else []))
    ensures Wellformed(result, order, links + [(a, b)])
  {
    var linked := links + [(a, b)];
    forall k | k in result
      ensures result[k].children == Targets(linked, k) && result[k].parents == Sources(linked, k)
    {
      AdjacencyAppend(links, (a, b), k);
    }
    forall i, j | 0 <= i < j < |linked|
      ensures linked[i] != linked[j]
    {
      if j == |links| {
        assert linked[i] in links;
      }
    }
  }

  /** In a well-formed graph no node lists an id that is not a node. */
  lemma NoDanglingWhenAbsent(nodes: map<string, GoalNode>, order: seq<string>, links: seq<Link>, id: string)
    requires Wellformed(nodes, order, links) && id !in nodes
    ensures forall k :: k in nodes ==> id !in nodes[k].children && id !in nodes[k].parents
    ensures forall l :: l in links ==> l.0 != id && l.1 != id
  {
    forall k | k in nodes
      ensures id !in nodes[k].children && id !in nodes[k].parents
    {
      AdjacencyMembership(links, k, id);
      AdjacencyMembership(links, id, k);
    }
  }

  // ---------------------------------------------------------------------------
  // The graph object
  // ---------------------------------------------------------------------------

  class GoalGraph {
    var nodes: map<string, GoalNode>
    var order: seq<string>
    var links: seq<Link>

    ghost predicate Valid()
      reads this
    {
      Wellformed(nodes, order, links)
    }

    constructor ()
      ensures Valid()
      ensures nodes == map[] && order == [] && links == []
    {
      nodes, order, links := map[], [], [];
    }

    /** Adds a node with empty adjacency; refuses an id already in use. */
    method AddNode(id: string, description: string, category: Option<string>) returns (ok: bool)
      requires Valid()
      modifies this
      ensures Valid()
      ensures ok <==> id !in old(nodes)
      ensures ok ==> nodes == old(nodes)[id := GoalNode(id, description, CategoryOrDefault(category), [], [])]
      ensures ok ==> order == old(order) + [id]
      ensures !ok ==> nodes == old(nodes) && order == old(order)
      ensures links == old(links)
    {
      if id in nodes {
        return false;
      }
      Unlinked(links, id);
      nodes := nodes[id := GoalNode(id, description, CategoryOrDefault(category), [], [])];
      order := order + [id];
      ok := true;
    }

    /** Adds the link `(sourceId, targetId)` unless an endpoint is missing or the
        ordered pair is already linked. Self-loops and cycles are accepted. */
    method AddLink(sourceId: string, targetId: string) returns (ok: bool)
      requires Valid()
      modifies this
      ensures Valid()
      ensures ok <==> sourceId in old(nodes) && targetId in old(nodes) && (sourceId, targetId) !in old(links)
      ensures !ok ==> nodes == old(nodes) && links == old(links)
      ensures ok ==> links == old(links) + [(sourceId, targetId)]
      ensures ok ==> nodes.Keys == old(nodes).Keys
      ensures ok ==> forall k :: k in nodes ==> nodes[k] == old(nodes)[k].(
        children := old(nodes)[k].children + (if k == sourceId then [targetId] else []),
        parents := old(nodes)[k].parents + (if k == targetId then [sourceId] else []))
      ensures order == old(order)
    {
      if sourceId !in nodes || targetId !in nodes {
        return false;
      }
      if (sourceId, targetId) in links {
        return false;
      }
      ghost var n0 := nodes;
      LinkUpdate(nodes, sourceId, targetId);
      var source := nodes[sourceId];
      nodes := nodes[sourceId := source.(children := source.children + [targetId])];
      // Re-read the target: for a self-loop it is the node just updated.
      var target := nodes[targetId];
      nodes := nodes[targetId := target.(parents := target.parents + [sourceId])];
      LinkKeepsWellformed(n0, order, links, sourceId, targetId, nodes);
      links := links + [(sourceId, targetId)];
      ok := true;
    }

    /** Removes a node: first strips its id from its parents' `children`, then
        (reading its `children` afresh) from its children's `parents`, then drops
        every link touching it and deletes it. */
    method RemoveNode(id: string) returns (ok: bool)
      requires Valid()
      modifies this
      ensures Valid()
      ensures ok <==> id in old(nodes)
      ensures !ok ==> nodes == old(nodes) && order == old(order) && links == old(links)
      ensures ok ==> nodes == Removed(old(nodes), id)
      ensures ok ==> links == DropTouching(old(links), id) && order == RemoveAll(old(order), id)
      ensures forall k :: k in nodes ==> id !in nodes[k].children && id !in nodes[k].parents
      ensures forall l :: l in links ==> l.0 != id && l.1 != id
    {
      if id !in nodes {
        NoDanglingWhenAbsent(nodes, order, links, id);
        return false;
      }
      ghost var n0, o0, l0 := nodes, order, links;
      nodes := StripFromChildren(nodes, nodes[id].parents, id);
      nodes := StripFromParents(nodes, nodes[id].children, id);
      links := DropTouching(links, id);
      nodes := nodes - {id};
      order := RemoveAll(order, id);
      RemovalIsDetach(n0, o0, l0, id, nodes);
      RemovalKeepsWellformed(n0, o0, l0, id);
      ok := true;
    }

    /** Replaces the description and category of an existing node. */
    method UpdateNode(id: string, description: string, category: string) returns (ok: bool)
      requires Valid()
      modifies this
      ensures Valid()
      ensures ok <==> id in old(nodes)
      ensures ok ==> nodes == old(nodes)[id := old(nodes)[id].(description := description, category := category)]
      ensures !ok ==> nodes == old(nodes)
      ensures order == old(order) && links == old(links)
    {
      if id !in nodes {
        return false;
      }
      nodes := nodes[id := nodes[id].(description := description, category := category)];
      ok := true;
    }

    /** Empties the graph. */
    method Clear()
      requires Valid()
      modifies this
      ensures Valid()
      ensures nodes == map[] && order == [] && links == []
    {
      nodes, order, links := map[], [], [];
    }

    function GetNode(id: string): (r: Option<GoalNode>)
      reads this
      ensures r.Some? <==> id in nodes
      ensures r.Some? ==> r.value == nodes[id]
    {
      if id in nodes then Some(nodes[id]) else None
    }

    /** `getAllNodes`: every node once, in insertion order. */
    function GetAllNodes(): (r: seq<GoalNode>)
      reads this
      requires Valid()
      ensures |r| == |order| && forall i :: 0 <= i < |r| ==> r[i] == nodes[order[i]]
      ensures forall k :: k in nodes ==> nodes[k] in r
      ensures NoDuplicates(r)
    {
      AllNodesOnce(nodes, order);
      AllNodes(nodes, order)
    }

    /** `getAllLinks`: the links are exactly the child relation, each once. */
    function GetAllLinks(): (r: seq<Link>)
      reads this
      requires Valid()
      ensures forall l :: l in r <==> l.0 in nodes && l.1 in nodes[l.0].children
      ensures NoDuplicates(r)
    {
      LinksAreChildren(nodes, order, links);
      links
    }

    /** `search`: walks the nodes in insertion order and collects those whose id
        or description includes the query, ignoring case. */
    method Search(query: string) returns (results: seq<GoalNode>)
      requires Valid()
      ensures results == Matching(nodes, order, Lower(query))
    {
      results := [];
      var lowerQuery := Lower(query);
      var i := 0;
      ghost var done: seq<string> := [];
      while i < |order|
        invariant 0 <= i <= |order| && done == order[..i]
        invariant results == Matching(nodes, done, lowerQuery)
      {
        var id := order[i];
        var node := nodes[id];
        assert order[..i + 1] == done + [id];
        if Contains(Lower(id), lowerQuery) || Contains(Lower(node.description), lowerQuery) {
          results := results + [node];
        }
        done := done + [id];
        i := i + 1;
      }
      assert done == order;
    }
  }

  /** Asking for the same link twice: the second request is always refused,
      and once both goals exist the link is recorded exactly once, with one
      matching entry in each adjacency list. */
  method AddLinkTwice(g: GoalGraph, a: string, b: string) returns (first: bool, second: bool)
    requires g.Valid()
    modifies g
    ensures g.Valid()
    ensures first <==> a in old(g.nodes) && b in old(g.nodes) && (a, b) !in old(g.links)
    ensures !second
    ensures g.nodes.Keys == old(g.nodes).Keys
    ensures a in g.nodes && b in g.nodes ==>
      multiset(g.links)[(a, b)] == 1 &&
      multiset(g.nodes[a].children)[b] == 1 && multiset(g.nodes[b].parents)[a] == 1
  {
    first := g.AddLink(a, b);
    second := g.AddLink(a, b);
    if a in g.nodes && b in g.nodes {
      DistinctCountsOne(g.links, (a, b));
      LinkMatchesOneEntry(g.nodes, g.order, g.links, (a, b));
    }
  }

  /** The "add goal" form handler: both fields are trimmed and required; a
      non-empty parent field links the parent to the new goal when the goal was
      added (the link is silently skipped when the parent does not exist). */
  method AddNodeFromForm(g: GoalGraph, rawId: string, rawDescription: string, category: string, rawParent: string)
    returns (added: bool)
    requires g.Valid()
    modifies g
    ensures g.Valid()
    ensures added <==> Trim(rawId) != "" && Trim(rawDescription) != "" && Trim(rawId) !in old(g.nodes)
    ensures added ==> g.nodes.Keys == old(g.nodes).Keys + {Trim(rawId)}
    ensures added ==> g.order == old(g.order) + [Trim(rawId)]
    ensures added && Trim(rawParent) != "" && Trim(rawParent) in g.nodes ==>
      g.links == old(g.links) + [(Trim(rawParent), Trim(rawId))]
    ensures !(added && Trim(rawParent) != "" && Trim(rawParent) in g.nodes) ==> g.links == old(g.links)
    ensures !added ==> g.nodes == old(g.nodes) && g.order == old(g.order)
    ensures added ==>
      g.nodes[Trim(rawId)].description == Trim(rawDescription) && g.nodes[Trim(rawId)].category == category
    ensures forall k :: k in old(g.nodes) ==>
      k in g.nodes && g.nodes[k].description == old(g.nodes)[k].description &&
      g.nodes[k].category == old(g.nodes)[k].category
  {
    added := AddTrimmed(g, Trim(rawId), Trim(rawDescription), category, Trim(rawParent));
  }

  /** The handler once its fields are trimmed. */
  method AddTrimmed(g: GoalGraph, id: string, description: string, category: string, parent: string)
    returns (added: bool)
    requires g.Valid()
    modifies g
    ensures g.Valid()
    ensures added <==> id != "" && description != "" && id !in old(g.nodes)
    ensures added ==> g.nodes.Keys == old(g.nodes).Keys + {id}
    ensures added ==> g.order == old(g.order) + [id]
    ensures added && parent != "" && parent in g.nodes ==> g.links == old(g.links) + [(parent, id)]
    ensures !(added && parent != "" && parent in g.nodes) ==> g.links == old(g.links)
    ensures !added ==> g.nodes == old(g.nodes) && g.order == old(g.order)
    ensures added ==> g.nodes[id].description == description && g.nodes[id].category == category
    ensures forall k :: k in old(g.nodes) ==>
      k in g.nodes && g.nodes[k].description == old(g.nodes)[k].description &&
      g.nodes[k].category == old(g.nodes)[k].category
  {
    if id == "" || description == "" {
      return false;
    }
    added := g.AddNode(id, description, Some(category));
    if added && parent != "" {
      var linked := g.AddLink(parent, id);
    }
  }
}
