/** What label propagation promises: order independence, connectivity, and a partition of the nodes. */
module CommunityTheorems {
  import opened Text
  import opened Sorting
  import opened Communities
  import Decimal

  // ---- Order independence ----

  ghost predicate DistinctIds(nodes: seq<Node>) { NoDuplicates(Ids(nodes)) }

  lemma IdsOf(nodes: seq<Node>)
    ensures forall id :: id in Ids(nodes) <==> exists n :: n in nodes && n.id == id
  {
    forall id | id in Ids(nodes) ensures exists n :: n in nodes && n.id == id {
      var i :| 0 <= i < |nodes| && Ids(nodes)[i] == id;
      assert nodes[i] in nodes;
    }
    forall n | n in nodes ensures n.id in Ids(nodes) {
      var i :| 0 <= i < |nodes| && nodes[i] == n;
      assert Ids(nodes)[i] == n.id;
    }
  }

  lemma {:induction false} NodeLabelsOf(nodes: seq<Node>)
    requires DistinctIds(nodes)
    ensures forall n | n in nodes :: n.id in NodeLabels(nodes) && NodeLabels(nodes)[n.id] == n.title
    ensures forall id | id in NodeLabels(nodes) :: id in Ids(nodes)
  {
    if nodes != [] {
      var init, last := nodes[..|nodes| - 1], nodes[|nodes| - 1];
      IdsSplit(nodes, |nodes| - 1);
      assert forall k | 0 <= k < |init| :: Ids(nodes)[k] == Ids(init)[k];
      NodeLabelsOf(init);
      IdsOf(init);
      assert forall n | n in nodes :: n in init || n == last;
      assert Ids(nodes)[|init|] == last.id;
    }
  }

  function Without(nodes: seq<Node>, i: nat): seq<Node>
    requires i < |nodes|
  {
    nodes[..i] + nodes[i + 1..]
  }

  lemma IdsSplit(nodes: seq<Node>, i: nat)
    requires i < |nodes|
    ensures multiset(Ids(nodes)) == multiset(Ids(Without(nodes, i))) + multiset{nodes[i].id}
  {
    assert Ids(nodes) == Ids(nodes[..i]) + [nodes[i].id] + Ids(nodes[i + 1..]);
    assert Ids(Without(nodes, i)) == Ids(nodes[..i]) + Ids(nodes[i + 1..]);
  }

  lemma {:induction false} SameIds(nodes: seq<Node>, nodes': seq<Node>)
    requires multiset(nodes) == multiset(nodes')
    ensures multiset(Ids(nodes)) == multiset(Ids(nodes'))
    decreases |nodes|
  {
    SameElements(nodes, nodes');
    if nodes != [] {
      assert nodes[0] in nodes';
      var i :| 0 <= i < |nodes'| && nodes'[i] == nodes[0];
      WithoutIndex(nodes, 0);
      WithoutIndex(nodes', i);
      SameIds(Without(nodes, 0), Without(nodes', i));
      IdsSplit(nodes, 0);
      IdsSplit(nodes', i);
    }
  }

  /** The same graph in another order: the nodes permuted, the edges permuted or repeated. */
  ghost predicate SameInput(nodes: seq<Node>, edges: seq<Edge>, nodes': seq<Node>, edges': seq<Edge>) {
    && multiset(nodes) == multiset(nodes')
    && forall e :: e in edges <==> e in edges'
  }

  lemma SameTitles(nodes: seq<Node>, nodes': seq<Node>)
    requires DistinctIds(nodes) && multiset(nodes) == multiset(nodes')
    ensures NodeLabels(nodes) == NodeLabels(nodes')
  {
    SameIds(nodes, nodes');
    DistinctIsOrderFree(Ids(nodes), Ids(nodes'));
    SameElements(nodes, nodes');
    NodeLabelsOf(nodes);
    NodeLabelsOf(nodes');
    IdsOf(nodes);
    IdsOf(nodes');
  }

  lemma SameGraph(nodes: seq<Node>, edges: seq<Edge>, nodes': seq<Node>, edges': seq<Edge>)
    requires SameInput(nodes, edges, nodes', edges')
    ensures SortBy(Ids(nodes), LessEq) == SortBy(Ids(nodes'), LessEq)
    ensures Adjacency(nodes, edges) == Adjacency(nodes', edges')
  {
    SameIds(nodes, nodes');
    SameElements(Ids(nodes), Ids(nodes'));
    SortedIdsAreUnique(Ids(nodes), Ids(nodes'));
    forall a ensures Neighbors(nodes, edges, a) == Neighbors(nodes', edges', a) {}
  }

  lemma SortedIdsAreUnique(ids: seq<Id>, ids': seq<Id>)
    requires multiset(ids) == multiset(ids')
    ensures SortBy(ids, LessEq) == SortBy(ids', LessEq)
  {
    LessIsATotalOrder();
    SortForgetsOrder(ids, ids', LessEq);
  }

  lemma GroupOrderIsStrict(g: seq<Id>, h: seq<Id>, ids: seq<Id>, labels: Labels)
    requires IsGroup(g, ids, labels) && IsGroup(h, ids, labels) && GroupLe(g, h) && GroupLe(h, g)
    ensures g == h
  {
    LessIsATotalOrder();
  }

  lemma GroupsAreUnique(groups: seq<seq<Id>>, groups': seq<seq<Id>>, ids: seq<Id>, labels: Labels)
    requires AreGroupsInOrder(groups, ids, labels) && AreGroupsInOrder(groups', ids, labels)
    ensures groups == groups'
  {
    OnceEach(groups);
    OnceEach(groups');
    forall g ensures multiset(groups)[g] == multiset(groups')[g] {
      assert g in multiset(groups) <==> g in groups;
      assert g in multiset(groups') <==> g in groups';
    }
    GroupLeIsATotalPreorder();
    forall g, h | g in groups && h in groups && GroupLe(g, h) && GroupLe(h, g) ensures g == h {
      GroupOrderIsStrict(g, h, ids, labels);
    }
    SortedIsUnique(groups, groups', GroupLe);
  }

  lemma PresentationIsUnique(r: Result, r': Result, groups: seq<seq<Id>>, graph: Graph, titles: map<Id, Text>)
    requires Presents(r, groups, graph, titles) && Presents(r', groups, graph, titles)
    ensures r == r'
  {
    assert r.communities == r'.communities;
  }

  /** Whatever the order of nodes, edges and of every iteration, detection has one result. */
  lemma OrderIndependence(
      nodes: seq<Node>, edges: seq<Edge>, nodes': seq<Node>, edges': seq<Edge>, r: Result, r': Result)
    requires DistinctIds(nodes) && SameInput(nodes, edges, nodes', edges')
    requires IsResult(nodes, edges, r) && IsResult(nodes', edges', r')
    ensures r == r'
  {
    SameGraph(nodes, edges, nodes', edges');
    SameTitles(nodes, nodes');
    var groups :| IsDetection(nodes, edges, groups, r);
    var groups' :| IsDetection(nodes', edges', groups', r');
    GroupsAreUnique(groups, groups', SortBy(Ids(nodes), LessEq), FinalLabels(nodes, edges));
    PresentationIsUnique(r, r', groups, Adjacency(nodes, edges), NodeLabels(nodes));
  }

  // ---- Connectivity ----

  predicate Linked(graph: Graph, a: Id, b: Id) { a in graph && b in graph[a] }

  predicate Hop(graph: Graph, p: seq<Id>, i: nat)
    requires i + 1 < |p|
  {
    Linked(graph, p[i], p[i + 1])
  }

  predicate IsPath(graph: Graph, p: seq<Id>) {
    p != [] && forall i | 0 <= i < |p| - 1 :: Hop(graph, p, i)
  }

  ghost predicate Connected(graph: Graph, a: Id, b: Id) {
    exists p :: IsPath(graph, p) && p[0] == a && p[|p| - 1] == b
  }

  ghost predicate Undirected(graph: Graph) { forall a, b :: Linked(graph, a, b) ==> Linked(graph, b, a) }

  lemma AdjacencyIsUndirected(nodes: seq<Node>, edges: seq<Edge>)
    ensures Undirected(Adjacency(nodes, edges))
  {
  }

  lemma ConnectedToItself(graph: Graph, a: Id)
    ensures Connected(graph, a, a)
  {
    assert IsPath(graph, [a]);
  }

  lemma ConnectedThrough(graph: Graph, a: Id, b: Id, c: Id)
    requires Connected(graph, a, b) && Connected(graph, b, c)
    ensures Connected(graph, a, c)
  {
    var p :| IsPath(graph, p) && p[0] == a && p[|p| - 1] == b;
    var q :| IsPath(graph, q) && q[0] == b && q[|q| - 1] == c;
    var r := p + q[1..];
    forall i | 0 <= i < |r| - 1 ensures Hop(graph, r, i) {
      assert if i < |p| - 1 then Hop(graph, p, i) else Hop(graph, q, i - |p| + 1);
    }
    assert IsPath(graph, r);
  }

  lemma ConnectedBack(graph: Graph, a: Id, b: Id)
    requires Undirected(graph) && Connected(graph, a, b)
    ensures Connected(graph, b, a)
  {
    var p :| IsPath(graph, p) && p[0] == a && p[|p| - 1] == b;
    var r := seq(|p|, i requires 0 <= i < |p| => p[|p| - 1 - i]);
    forall i | 0 <= i < |r| - 1 ensures Hop(graph, r, i) {
      assert Hop(graph, p, |p| - 2 - i);
    }
    assert IsPath(graph, r);
  }

  lemma LinkedIsConnected(graph: Graph, a: Id, b: Id)
    requires Linked(graph, a, b)
    ensures Connected(graph, a, b)
  {
    assert IsPath(graph, [a, b]);
  }

  /** The label of id is the id of a node in the same component. */
  ghost predicate LabelIsLocal(ids: seq<Id>, graph: Graph, labels: Labels, id: Id) {
    id in labels && labels[id] in ids && Connected(graph, id, labels[id])
  }

  ghost predicate LabelsAreLocal(ids: seq<Id>, graph: Graph, labels: Labels) {
    && labels.Keys == (set id | id in ids)
    && (forall id {:trigger LabelIsLocal(ids, graph, labels, id)} | id in ids :: LabelIsLocal(ids, graph, labels, id))
  }

  lemma OneNewLabel(ids: seq<Id>, id: Id, next: Id, graph: Graph, labels: Labels)
    requires id in ids && next in ids && Connected(graph, id, next) && LabelsAreLocal(ids, graph, labels)
    ensures LabelsAreLocal(ids, graph, labels[id := next])
  {
    forall x | x in ids ensures LabelIsLocal(ids, graph, labels[id := next], x) {
      assert LabelIsLocal(ids, graph, labels, x);
    }
  }

  lemma RelabelIsLocal(ids: seq<Id>, id: Id, graph: Graph, labels: Labels)
    requires id in ids && LabelsAreLocal(ids, graph, labels)
    ensures LabelsAreLocal(ids, graph, Relabel(id, graph, labels))
  {
    if Relabel(id, graph, labels) != labels {
      var next := BestOf(graph[id], labels);
      VotedLabels(graph[id], labels, next);
      var n :| n in graph[id] && n in labels && labels[n] == next;
      assert LabelIsLocal(ids, graph, labels, n);
      LinkedIsConnected(graph, id, n);
      ConnectedThrough(graph, id, n, next);
      OneNewLabel(ids, id, next, graph, labels);
    }
  }

  lemma {:induction false} SweepIsLocal(ids: seq<Id>, todo: seq<Id>, graph: Graph, labels: Labels)
    requires LabelsAreLocal(ids, graph, labels) && forall id | id in todo :: id in ids
    ensures LabelsAreLocal(ids, graph, Sweep(todo, graph, labels))
  {
    if todo != [] {
      RelabelIsLocal(ids, todo[0], graph, labels);
      SweepIsLocal(ids, todo[1..], graph, Relabel(todo[0], graph, labels));
    }
  }

  lemma {:induction false} IterateIsLocal(n: nat, ids: seq<Id>, graph: Graph, labels: Labels)
    requires LabelsAreLocal(ids, graph, labels)
    ensures LabelsAreLocal(ids, graph, Iterate(n, ids, graph, labels))
  {
    if n > 0 {
      SweepIsLocal(ids, ids, graph, labels);
      IterateIsLocal(n - 1, ids, graph, Sweep(ids, graph, labels));
    }
  }

  lemma OwnLabelsAreLocal(ids: seq<Id>, graph: Graph)
    ensures LabelsAreLocal(ids, graph, OwnLabels(ids))
  {
    forall id | id in ids ensures LabelIsLocal(ids, graph, OwnLabels(ids), id) { ConnectedToItself(graph, id); }
  }

  /** After any number of passes each node's label is the id of a node connected to it. */
  lemma LabelsStayInTheirComponent(nodes: seq<Node>, edges: seq<Edge>, passes: nat)
    ensures var ids := SortBy(Ids(nodes), LessEq);
      LabelsAreLocal(ids, Adjacency(nodes, edges), Iterate(passes, ids, Adjacency(nodes, edges), OwnLabels(ids)))
  {
    var ids := SortBy(Ids(nodes), LessEq);
    OwnLabelsAreLocal(ids, Adjacency(nodes, edges));
    IterateIsLocal(passes, ids, Adjacency(nodes, edges), OwnLabels(ids));
  }

  // ---- Communities ----

  lemma KeyIsInjective(m: nat, n: nat)
    requires Key(m) == Key(n)
    ensures m == n
  {
    assert Key(m)[10..] == Decimal.Print(m) && Key(n)[10..] == Decimal.Print(n);
    Decimal.PrintIsInjective(m, n);
  }

  lemma LabelClasses(groups: seq<seq<Id>>, ids: seq<Id>, labels: Labels, graph: Graph, titles: map<Id, Text>, r: Result)
    requires AreGroupsInOrder(groups, ids, labels) && Presents(r, groups, graph, titles)
    ensures forall id :: id in r.assignments <==> id in ids
    ensures forall a, b | a in r.assignments && b in r.assignments ::
      r.assignments[a] == r.assignments[b] <==> LabelOf(labels, a) == LabelOf(labels, b)
  {
    GroupsAreDisjoint(groups, ids, labels);
    forall id ensures id in r.assignments <==> id in ids {
      if id in ids { var k := GroupIndex(groups, ids, labels, id); }
    }
    forall a, b | a in r.assignments && b in r.assignments
      ensures r.assignments[a] == r.assignments[b] <==> LabelOf(labels, a) == LabelOf(labels, b)
    {
      var k := GroupIndex(groups, ids, labels, a);
      var l := GroupIndex(groups, ids, labels, b);
      SameKey(groups, ids, labels, a, k, b, l, Key(k + 1), Key(l + 1));
    }
  }

  lemma KeysAgreeIff(m: nat, n: nat, x: string, y: string)
    requires x == Key(m) && y == Key(n)
    ensures x == y <==> m == n
  {
    if x == y { KeyIsInjective(m, n); }
  }

  lemma SameMembers(ids: seq<Id>, labels: Labels, a: Id, b: Id)
    requires a in ids && b in ids
    ensures Members(ids, labels, LabelOf(labels, a)) == Members(ids, labels, LabelOf(labels, b)) <==>
      LabelOf(labels, a) == LabelOf(labels, b)
  {
    assert a in Members(ids, labels, LabelOf(labels, a));
    assert a in Members(ids, labels, LabelOf(labels, b)) ==> LabelOf(labels, a) == LabelOf(labels, b);
  }

  lemma SamePlace(groups: seq<seq<Id>>, k: nat, l: nat)
    requires NoDuplicates(groups) && k < |groups| && l < |groups|
    ensures groups[k] == groups[l] <==> k == l
  {
  }

  /** With keys that agree exactly for the same place, nodes have the same key exactly for the same label. */
  lemma SameGroup(
      groups: seq<seq<Id>>, ids: seq<Id>, labels: Labels, a: Id, k: nat, b: Id, l: nat, x: string, y: string)
    requires NoDuplicates(groups) && a in ids && b in ids && k < |groups| && l < |groups|
    requires groups[k] == Members(ids, labels, LabelOf(labels, a))
    requires groups[l] == Members(ids, labels, LabelOf(labels, b))
    requires x == y <==> k == l
    ensures x == y <==> LabelOf(labels, a) == LabelOf(labels, b)
  {
    SameMembers(ids, labels, a, b);
    SamePlace(groups, k, l);
  }

  lemma SameKey(
      groups: seq<seq<Id>>, ids: seq<Id>, labels: Labels, a: Id, k: nat, b: Id, l: nat, x: string, y: string)
    requires NoDuplicates(groups) && a in ids && b in ids && k < |groups| && l < |groups|
    requires groups[k] == Members(ids, labels, LabelOf(labels, a))
    requires groups[l] == Members(ids, labels, LabelOf(labels, b))
    requires x == Key(k + 1) && y == Key(l + 1)
    ensures x == y <==> LabelOf(labels, a) == LabelOf(labels, b)
  {
    KeysAgreeIff(k + 1, l + 1, x, y);
    SameGroup(groups, ids, labels, a, k, b, l, x, y);
  }

  /** Two nodes share a community exactly when they end with the same label; every node has one. */
  lemma CommunitiesAreLabelClasses(nodes: seq<Node>, edges: seq<Edge>, r: Result)
    requires IsResult(nodes, edges, r)
    ensures forall id :: id in r.assignments <==> id in Ids(nodes)
    ensures var labels := FinalLabels(nodes, edges);
      forall a, b | a in r.assignments && b in r.assignments ::
        r.assignments[a] == r.assignments[b] <==> LabelOf(labels, a) == LabelOf(labels, b)
  {
    var groups :| IsDetection(nodes, edges, groups, r);
    var ids := SortBy(Ids(nodes), LessEq);
    SameElements(ids, Ids(nodes));
    LabelClasses(groups, ids, FinalLabels(nodes, edges), Adjacency(nodes, edges), NodeLabels(nodes), r);
  }

  lemma GroupIndex(groups: seq<seq<Id>>, ids: seq<Id>, labels: Labels, id: Id) returns (k: nat)
    requires AreGroupsInOrder(groups, ids, labels) && id in ids
    ensures k < |groups| && groups[k] == Members(ids, labels, LabelOf(labels, id)) && id in groups[k]
  {
    var g := Members(ids, labels, LabelOf(labels, id));
    assert id in g;
    assert g[0] in g;
    assert IsGroup(g, ids, labels);
    k :| 0 <= k < |groups| && groups[k] == g;
  }

  lemma SameLabelIsConnected(ids: seq<Id>, graph: Graph, labels: Labels, a: Id, b: Id)
    requires LabelsAreLocal(ids, graph, labels) && Undirected(graph)
    requires a in ids && b in ids && LabelOf(labels, a) == LabelOf(labels, b)
    ensures Connected(graph, a, b)
  {
    assert LabelIsLocal(ids, graph, labels, a) && LabelIsLocal(ids, graph, labels, b);
    ConnectedBack(graph, b, labels[b]);
    ConnectedThrough(graph, a, labels[a], b);
  }

  /** No community spans two components. */
  lemma CommunitiesAreConnected(nodes: seq<Node>, edges: seq<Edge>, r: Result, a: Id, b: Id)
    requires IsResult(nodes, edges, r)
    requires a in r.assignments && b in r.assignments && r.assignments[a] == r.assignments[b]
    ensures Connected(Adjacency(nodes, edges), a, b)
  {
    CommunitiesAreLabelClasses(nodes, edges, r);
    LabelsStayInTheirComponent(nodes, edges, PASSES);
    SameElements(SortBy(Ids(nodes), LessEq), Ids(nodes));
    AdjacencyIsUndirected(nodes, edges);
    SameLabelIsConnected(SortBy(Ids(nodes), LessEq), Adjacency(nodes, edges), FinalLabels(nodes, edges), a, b);
  }

  lemma LongPathHasANeighbor(graph: Graph, p: seq<Id>)
    requires IsPath(graph, p)
    ensures |p| > 1 ==> exists x :: Linked(graph, p[0], x)
  {
    if |p| > 1 { assert Hop(graph, p, 0); }
  }

  /** A node without edges shares its community with no other node. */
  lemma IsolatedNodesAreSingletons(nodes: seq<Node>, edges: seq<Edge>, r: Result, a: Id, b: Id)
    requires IsResult(nodes, edges, r)
    requires a in r.assignments && b in r.assignments && r.assignments[a] == r.assignments[b]
    requires forall x :: !Linked(Adjacency(nodes, edges), a, x)
    ensures a == b
  {
    CommunitiesAreConnected(nodes, edges, r, a, b);
    var graph := Adjacency(nodes, edges);
    var p :| IsPath(graph, p) && p[0] == a && p[|p| - 1] == b;
    LongPathHasANeighbor(graph, p);
  }

  // ---- Counts ----

  function Total(communities: seq<Community>): nat {
    if communities == [] then 0 else Total(communities[..|communities| - 1]) + communities[|communities| - 1].count
  }

  function Concat(groups: seq<seq<Id>>): seq<Id> {
    if groups == [] then [] else Concat(groups[..|groups| - 1]) + groups[|groups| - 1]
  }

  lemma {:induction false} TotalIsLength(groups: seq<seq<Id>>, communities: seq<Community>)
    requires |groups| == |communities| && forall k | 0 <= k < |groups| :: communities[k].count == |groups[k]|
    ensures Total(communities) == |Concat(groups)|
  {
    if groups != [] { TotalIsLength(groups[..|groups| - 1], communities[..|communities| - 1]); }
  }

  lemma {:induction false} MembersOnce(ids: seq<Id>, labels: Labels, v: Id)
    ensures forall id ::
      multiset(Members(ids, labels, v))[id] == if LabelOf(labels, id) == v then multiset(ids)[id] else 0
  {
    if ids != [] {
      MembersOnce(ids[..|ids| - 1], labels, v);
      assert ids == ids[..|ids| - 1] + [ids[|ids| - 1]];
    }
  }

  lemma {:induction false} ConcatOfGroups(groups: seq<seq<Id>>, ids: seq<Id>, labels: Labels, id: Id)
    requires NoDuplicates(groups) && forall g | g in groups :: IsGroup(g, ids, labels)
    ensures multiset(Concat(groups))[id]
      == if Members(ids, labels, LabelOf(labels, id)) in groups then multiset(ids)[id] else 0
  {
    if groups != [] {
      var init, last := groups[..|groups| - 1], groups[|groups| - 1];
      ConcatOfGroups(init, ids, labels, id);
      assert last in groups;
      MembersOnce(ids, labels, LabelOf(labels, last[0]));
      assert forall g :: g in groups <==> g in init || g == last;
      var own := Members(ids, labels, LabelOf(labels, id));
      if LabelOf(labels, id) == LabelOf(labels, last[0]) {
        assert own == last;
      } else {
        assert last[0] in last && last[0] !in own;
      }
    }
  }

  lemma ConcatIsIds(groups: seq<seq<Id>>, ids: seq<Id>, labels: Labels)
    requires AreGroupsInOrder(groups, ids, labels)
    ensures multiset(Concat(groups)) == multiset(ids)
  {
    forall id ensures multiset(Concat(groups))[id] == multiset(ids)[id] {
      ConcatOfGroups(groups, ids, labels, id);
      if id in ids { var k := GroupIndex(groups, ids, labels, id); }
    }
  }

  /** The communities partition the nodes, repeated ids included: their counts add up. */
  lemma CountsAddUp(nodes: seq<Node>, edges: seq<Edge>, r: Result)
    requires IsResult(nodes, edges, r)
    ensures Total(r.communities) == |nodes|
  {
    var groups :| IsDetection(nodes, edges, groups, r);
    var ids, labels := SortBy(Ids(nodes), LessEq), FinalLabels(nodes, edges);
    ConcatIsIds(groups, ids, labels);
    SameElements(Concat(groups), ids);
    SameElements(ids, Ids(nodes));
    TotalIsLength(groups, r.communities);
  }

  lemma GroupsAreDistinctLists(groups: seq<seq<Id>>, ids: seq<Id>, labels: Labels, k: nat)
    requires AreGroupsInOrder(groups, ids, labels) && NoDuplicates(ids) && k < |groups|
    ensures groups[k] != [] && NoDuplicates(groups[k])
  {
    assert IsGroup(groups[k], ids, labels);
    MembersOnce(ids, labels, LabelOf(labels, groups[k][0]));
    OnceEach(ids);
    OnceEach(groups[k]);
  }

  lemma SharersAreTheGroup(groups: seq<seq<Id>>, assignments: map<Id, string>, k: nat)
    requires Assigned(assignments, groups, |groups|) && k < |groups|
    ensures forall id :: id in groups[k] <==> id in assignments && assignments[id] == Key(k + 1)
  {
    forall id | id in assignments && assignments[id] == Key(k + 1) ensures id in groups[k] {
      var l :| 0 <= l < |groups| && id in groups[l];
      KeyIsInjective(k + 1, l + 1);
    }
  }

  /** The k-th community's count is the number of nodes assigned its key, and counts never increase. */
  lemma CountsMatchAssignments(nodes: seq<Node>, edges: seq<Edge>, r: Result, k: nat)
    requires DistinctIds(nodes) && IsResult(nodes, edges, r) && k < |r.communities|
    ensures r.communities[k].key == Key(k + 1)
    ensures r.communities[k].count == |set id | id in r.assignments && r.assignments[id] == Key(k + 1)|
    ensures k + 1 < |r.communities| ==> r.communities[k + 1].count <= r.communities[k].count
  {
    var groups :| IsDetection(nodes, edges, groups, r);
    var ids, labels := SortBy(Ids(nodes), LessEq), FinalLabels(nodes, edges);
    DistinctIsOrderFree(Ids(nodes), ids);
    GroupsAreDisjoint(groups, ids, labels);
    GroupsAreDistinctLists(groups, ids, labels, k);
    SharersAreTheGroup(groups, r.assignments, k);
    SizeOfDistinct(groups[k], set id | id in r.assignments && r.assignments[id] == Key(k + 1));
    assert k + 1 < |groups| ==> GroupLe(groups[k], groups[k + 1]);
  }

  lemma {:induction false} SizeOfDistinct(xs: seq<Id>, s: set<Id>)
    requires NoDuplicates(xs) && forall x :: x in s <==> x in xs
    ensures |s| == |xs|
  {
    if xs != [] {
      var last := xs[|xs| - 1];
      assert xs == xs[..|xs| - 1] + [last];
      SizeOfDistinct(xs[..|xs| - 1], s - {last});
    } else {
      assert s == {};
    }
  }
}
