/**
  Community detection by label propagation (packages/graph-core/src/communities.ts).
  Sets and maps are iterated in an arbitrary order in every method.
 */
module Communities {
  import opened Text
  import opened Sorting
  import Decimal

  type Id = Text
  type Graph = map<Id, set<Id>>
  type Labels = map<Id, Id>

  const PASSES: nat := 20

  datatype Node = Node(id: Id, title: Text)
  datatype Edge = Edge(source: Id, target: Id)
  datatype Community = Community(key: string, title: Text, count: nat)
  datatype Result = Result(assignments: map<Id, string>, communities: seq<Community>)

  // ---- The graph ----

  function Ids(nodes: seq<Node>): (ids: seq<Id>)
  {
    seq(|nodes|, i requires 0 <= i < |nodes| => nodes[i].id)
  }

  /** Some edge joins a and b, in either direction. */
  predicate Joined(edges: seq<Edge>, a: Id, b: Id) { Edge(a, b) in edges || Edge(b, a) in edges }

  function Neighbors(nodes: seq<Node>, edges: seq<Edge>, a: Id): set<Id> {
    set b | b in Ids(nodes) && b != a && Joined(edges, a, b)
  }

  function Adjacency(nodes: seq<Node>, edges: seq<Edge>): Graph {
    map a | a in Ids(nodes) :: Neighbors(nodes, edges, a)
  }

  lemma OneMoreEdge(nodes: seq<Node>, edges: seq<Edge>, e: Edge, a: Id)
    ensures Neighbors(nodes, edges + [e], a) == Neighbors(nodes, edges, a)
      + (if a == e.source && e.target in Ids(nodes) && e.target != a then {e.target} else {})
      + (if a == e.target && e.source in Ids(nodes) && e.source != a then {e.source} else {})
  {
    assert forall x :: x in edges + [e] <==> x in edges || x == e;
  }

  /** The neighbor sets of the first edges. */
  ghost predicate Built(adjacency: Graph, nodes: seq<Node>, edges: seq<Edge>) {
    && (forall a :: a in adjacency <==> a in Ids(nodes))
    && (forall a | a in adjacency :: adjacency[a] == Neighbors(nodes, edges, a))
  }

  lemma BuiltOneMore(before: Graph, after: Graph, nodes: seq<Node>, edges: seq<Edge>, e: Edge)
    requires Built(before, nodes, edges)
    requires if e.source !in before || e.target !in before || e.source == e.target then after == before
      else after == before[e.source := before[e.source] + {e.target}][e.target := before[e.target] + {e.source}]
    ensures Built(after, nodes, edges + [e])
  {
    forall a | a in after ensures after[a] == Neighbors(nodes, edges + [e], a) { OneMoreEdge(nodes, edges, e, a); }
  }

  method BuildAdjacency(nodes: seq<Node>, edges: seq<Edge>) returns (adjacency: Graph)
    ensures adjacency == Adjacency(nodes, edges)
  {
    adjacency := map[];
    for i := 0 to |nodes|
      invariant adjacency == map a | a in Ids(nodes[..i]) :: {}
    {
      assert Ids(nodes[..i + 1]) == Ids(nodes[..i]) + [nodes[i].id];
      adjacency := adjacency[nodes[i].id := {}];
    }
    assert nodes[..|nodes|] == nodes;
    for i := 0 to |edges|
      invariant Built(adjacency, nodes, edges[..i])
    {
      ghost var before := adjacency;
      assert edges[..i + 1] == edges[..i] + [edges[i]];
      var source, target := edges[i].source, edges[i].target;
      if source in adjacency && target in adjacency && source != target {
        adjacency := adjacency[source := adjacency[source] + {target}];
        adjacency := adjacency[target := adjacency[target] + {source}];
      }
      BuiltOneMore(before, adjacency, nodes, edges[..i], edges[i]);
    }
    assert edges[..|edges|] == edges;
  }

  // ---- One vote ----

  function Voters(ns: set<Id>, labels: Labels, v: Id): set<Id> {
    set n | n in ns && n in labels && labels[n] == v
  }

  function Votes(ns: set<Id>, labels: Labels, v: Id): nat { |Voters(ns, labels, v)| }

  predicate Beats(ns: set<Id>, labels: Labels, v: Id, u: Id) {
    Votes(ns, labels, u) < Votes(ns, labels, v) || (Votes(ns, labels, u) == Votes(ns, labels, v) && LessEq(v, u))
  }

  /** v is the label with most votes, the smallest of these; the empty string when nobody votes. */
  ghost predicate IsBest(ns: set<Id>, labels: Labels, v: Id) {
    || (Votes(ns, labels, v) > 0 && forall u :: Votes(ns, labels, u) > 0 ==> Beats(ns, labels, v, u))
    || (v == [] && forall u :: Votes(ns, labels, u) == 0)
  }

  lemma BestIsUnique(ns: set<Id>, labels: Labels, u: Id, v: Id)
    requires IsBest(ns, labels, u) && IsBest(ns, labels, v)
    ensures u == v
  {
    LessIsATotalOrder();
    if Votes(ns, labels, u) > 0 {
      assert Beats(ns, labels, u, v) || Votes(ns, labels, v) == 0;
    }
  }

  lemma {:induction false} BestAmong(ns: set<Id>, labels: Labels, candidates: set<Id>) returns (v: Id)
    requires candidates != {}
    ensures v in candidates && forall u | u in candidates :: Beats(ns, labels, v, u)
    decreases candidates
  {
    LessIsATotalOrder();
    v :| v in candidates;
    if candidates != {v} {
      var w := BestAmong(ns, labels, candidates - {v});
      if !Beats(ns, labels, v, w) { v := w; }
      forall u | u in candidates ensures Beats(ns, labels, v, u) {
        assert Beats(ns, labels, v, w);
        assert u == v || u == w || Beats(ns, labels, w, u);
      }
    }
  }

  lemma VotedLabels(ns: set<Id>, labels: Labels, v: Id)
    ensures Votes(ns, labels, v) > 0 <==> exists n :: n in ns && n in labels && labels[n] == v
  {
    if Votes(ns, labels, v) > 0 {
      assert Voters(ns, labels, v) != {};
      var n :| n in Voters(ns, labels, v);
    }
    if n :| n in ns && n in labels && labels[n] == v {
      assert n in Voters(ns, labels, v);
    }
  }

  lemma BestExists(ns: set<Id>, labels: Labels)
    ensures exists v :: IsBest(ns, labels, v)
  {
    var candidates := set n | n in ns && n in labels :: labels[n];
    forall v ensures v in candidates <==> Votes(ns, labels, v) > 0 { VotedLabels(ns, labels, v); }
    if candidates == {} {
      assert IsBest(ns, labels, []);
    } else {
      var v := BestAmong(ns, labels, candidates);
      assert IsBest(ns, labels, v);
    }
  }

  ghost function BestOf(ns: set<Id>, labels: Labels): (v: Id)
    ensures IsBest(ns, labels, v)
  {
    BestExists(ns, labels);
    var v :| IsBest(ns, labels, v);
    v
  }

  lemma OneMoreVoter(ns: set<Id>, labels: Labels, n: Id, v: Id)
    requires n !in ns
    ensures Votes(ns + {n}, labels, v) == Votes(ns, labels, v) + if n in labels && labels[n] == v then 1 else 0
  {
    if n in labels && labels[n] == v {
      assert Voters(ns + {n}, labels, v) == Voters(ns, labels, v) + {n};
    } else {
      assert Voters(ns + {n}, labels, v) == Voters(ns, labels, v);
    }
  }

  ghost predicate IsTally(tally: map<Id, nat>, ns: set<Id>, labels: Labels) {
    && (forall v :: v in tally <==> Votes(ns, labels, v) > 0)
    && (forall v | v in tally :: tally[v] == Votes(ns, labels, v))
  }

  method TallyVotes(neighbors: set<Id>, labels: Labels) returns (tally: map<Id, nat>)
    ensures IsTally(tally, neighbors, labels)
  {
    tally := map[];
    var rest := neighbors;
    while rest != {}
      invariant rest <= neighbors
      invariant IsTally(tally, neighbors - rest, labels)
    {
      var neighbor :| neighbor in rest;
      forall v ensures Votes(neighbors - (rest - {neighbor}), labels, v)
          == Votes(neighbors - rest, labels, v) + if neighbor in labels && labels[neighbor] == v then 1 else 0
      {
        assert neighbors - (rest - {neighbor}) == (neighbors - rest) + {neighbor};
        OneMoreVoter(neighbors - rest, labels, neighbor, v);
      }
      rest := rest - {neighbor};
      if neighbor in labels {
        var value := labels[neighbor];
        tally := tally[value := (if value in tally then tally[value] else 0) + 1];
      }
    }
    assert neighbors - rest == neighbors;
  }

  lemma BeatsIsTransitive(ns: set<Id>, labels: Labels, u: Id, v: Id, w: Id)
    requires Beats(ns, labels, u, v) && Beats(ns, labels, v, w)
    ensures Beats(ns, labels, u, w)
  {
    LessIsATotalOrder();
  }

  method BestLabel(neighbors: set<Id>, labels: Labels) returns (chosen: Id)
    ensures chosen == BestOf(neighbors, labels)
  {
    var tally := TallyVotes(neighbors, labels);
    chosen := [];
    var bestCount: int := -1;
    var entries := tally.Keys;
    while entries != {}
      invariant entries <= tally.Keys
      invariant bestCount == -1 ==> entries == tally.Keys && chosen == []
      invariant bestCount != -1 ==> chosen in tally.Keys - entries && bestCount == tally[chosen]
      invariant forall u | u in tally.Keys - entries :: Beats(neighbors, labels, chosen, u)
    {
      var value :| value in entries;
      var count := tally[value];
      ghost var before := chosen;
      if count > bestCount || (count == bestCount && Less(value, chosen)) {
        chosen := value;
        bestCount := count;
      }
      assert Beats(neighbors, labels, chosen, value) by { LessTotal(value, before); }
      forall u | u in tally.Keys - entries ensures Beats(neighbors, labels, chosen, u) {
        BeatsIsTransitive(neighbors, labels, chosen, before, u);
      }
      entries := entries - {value};
    }
    assert IsBest(neighbors, labels, chosen);
    BestIsUnique(neighbors, labels, chosen, BestOf(neighbors, labels));
  }

  // ---- Propagation ----

  ghost function Relabel(id: Id, graph: Graph, labels: Labels): Labels {
    if id !in graph || graph[id] == {} then labels
    else
      var next := BestOf(graph[id], labels);
      if next == [] || (id in labels && next == labels[id]) then labels else labels[id := next]
  }

  ghost function Sweep(ids: seq<Id>, graph: Graph, labels: Labels): Labels {
    if ids == [] then labels else Sweep(ids[1..], graph, Relabel(ids[0], graph, labels))
  }

  ghost function Iterate(n: nat, ids: seq<Id>, graph: Graph, labels: Labels): Labels {
    if n == 0 then labels else Iterate(n - 1, ids, graph, Sweep(ids, graph, labels))
  }

  function OwnLabels(ids: seq<Id>): Labels { map id | id in ids :: id }

  lemma {:induction false} FixedPoint(n: nat, ids: seq<Id>, graph: Graph, labels: Labels)
    requires Sweep(ids, graph, labels) == labels
    ensures Iterate(n, ids, graph, labels) == labels
  {
    if n > 0 { FixedPoint(n - 1, ids, graph, labels); }
  }

  /** Stopping at the first pass without a change gives the labels of all twenty passes. */
  method PropagateLabels(sortedIds: seq<Id>, adjacency: Graph) returns (labels: Labels)
    ensures labels == Iterate(PASSES, sortedIds, adjacency, OwnLabels(sortedIds))
  {
    labels := map[];
    for i := 0 to |sortedIds|
      invariant labels == OwnLabels(sortedIds[..i])
    {
      assert sortedIds[..i + 1] == sortedIds[..i] + [sortedIds[i]];
      labels := labels[sortedIds[i] := sortedIds[i]];
    }
    assert sortedIds[..|sortedIds|] == sortedIds;

    var pass: nat := 0;
    while pass < PASSES
      invariant pass <= PASSES
      invariant Iterate(PASSES - pass, sortedIds, adjacency, labels)
        == Iterate(PASSES, sortedIds, adjacency, OwnLabels(sortedIds))
    {
      var changed := false;
      ghost var before := labels;
      for i := 0 to |sortedIds|
        invariant Sweep(sortedIds[i..], adjacency, labels) == Sweep(sortedIds, adjacency, before)
        invariant !changed ==> labels == before
      {
        var id := sortedIds[i];
        assert sortedIds[i..][1..] == sortedIds[i + 1..];
        if id !in adjacency || |adjacency[id]| == 0 {
          continue;
        }
        var next := BestLabel(adjacency[id], labels);
        if next != [] && !(id in labels && next == labels[id]) {
          labels := labels[id := next];
          changed := true;
        }
      }
      if !changed {
        FixedPoint(PASSES - pass, sortedIds, adjacency, labels);
        break;
      }
      pass := pass + 1;
    }
  }

  // ---- Groups and their order ----

  function LabelOf(labels: Labels, id: Id): Id { if id in labels then labels[id] else id }

  function Members(ids: seq<Id>, labels: Labels, v: Id): (ms: seq<Id>)
    ensures forall id :: id in ms <==> id in ids && LabelOf(labels, id) == v
    ensures |ms| <= |ids|
  {
    if ids == [] then []
    else
      var init, last := ids[..|ids| - 1], ids[|ids| - 1];
      assert forall id :: id in ids <==> id in init || id == last;
      Members(init, labels, v) + if LabelOf(labels, last) == v then [last] else []
  }

  /** Largest group first; equal sizes by their smallest member. */
  predicate GroupLe(a: seq<Id>, b: seq<Id>) {
    |a| > |b| || (|a| == |b| && (a == [] || LessEq(a[0], b[0])))
  }

  predicate IsGroup(g: seq<Id>, ids: seq<Id>, labels: Labels) {
    g != [] && g == Members(ids, labels, LabelOf(labels, g[0]))
  }

  ghost predicate NoDuplicates<T>(xs: seq<T>) { forall i, j | 0 <= i < j < |xs| :: xs[i] != xs[j] }

  ghost predicate AreGroupsInOrder(groups: seq<seq<Id>>, ids: seq<Id>, labels: Labels) {
    && NoDuplicates(groups)
    && (forall g :: g in groups <==> IsGroup(g, ids, labels))
    && Sorted(groups, GroupLe)
  }

  function Degree(graph: Graph, id: Id): nat { if id in graph then |graph[id]| else 0 }

  /** The member of highest degree, the smallest of these. */
  function Representative(g: seq<Id>, graph: Graph): (r: Id)
    requires g != []
    ensures r in g
    ensures forall id | id in g ::
      Degree(graph, id) < Degree(graph, r) || (Degree(graph, id) == Degree(graph, r) && LessEq(r, id))
  {
    if |g| == 1 then g[0]
    else
      var r, x := Representative(g[..|g| - 1], graph), g[|g| - 1];
      LessIsATotalOrder();
      assert forall id | id in g :: id in g[..|g| - 1] || id == x;
      if Degree(graph, x) > Degree(graph, r) || (Degree(graph, x) == Degree(graph, r) && Less(x, r)) then x else r
  }

  function Key(n: nat): string { "community-" + Decimal.Print(n) }

  function Describe(g: seq<Id>, n: nat, graph: Graph, nodeLabels: map<Id, Text>): Community
    requires g != []
  {
    var r := Representative(g, graph);
    Community(Key(n), if r in nodeLabels then nodeLabels[r] else r, |g|)
  }

  function NodeLabels(nodes: seq<Node>): map<Id, Text> {
    if nodes == [] then map[]
    else NodeLabels(nodes[..|nodes| - 1])[nodes[|nodes| - 1].id := nodes[|nodes| - 1].title]
  }

  /** The labels the propagation ends with. */
  ghost function FinalLabels(nodes: seq<Node>, edges: seq<Edge>): Labels {
    var ids := SortBy(Ids(nodes), LessEq);
    Iterate(PASSES, ids, Adjacency(nodes, edges), OwnLabels(ids))
  }

  /** The members of the first n groups have the keys of their groups, and nobody else has one. */
  ghost predicate Assigned(assignments: map<Id, string>, groups: seq<seq<Id>>, n: nat)
    requires n <= |groups|
  {
    && (forall id :: id in assignments <==> exists k :: 0 <= k < n && id in groups[k])
    && (forall k, id | 0 <= k < n && id in groups[k] :: id in assignments && assignments[id] == Key(k + 1))
  }

  ghost predicate Presents(r: Result, groups: seq<seq<Id>>, graph: Graph, nodeLabels: map<Id, Text>) {
    && |r.communities| == |groups|
    && (forall k | 0 <= k < |groups| ::
          groups[k] != [] && r.communities[k] == Describe(groups[k], k + 1, graph, nodeLabels))
    && Assigned(r.assignments, groups, |groups|)
  }

  ghost predicate IsDetection(nodes: seq<Node>, edges: seq<Edge>, groups: seq<seq<Id>>, r: Result) {
    && AreGroupsInOrder(groups, SortBy(Ids(nodes), LessEq), FinalLabels(nodes, edges))
    && Presents(r, groups, Adjacency(nodes, edges), NodeLabels(nodes))
  }

  ghost predicate IsResult(nodes: seq<Node>, edges: seq<Edge>, r: Result) {
    exists groups :: IsDetection(nodes, edges, groups, r)
  }

  // ---- The methods that build the result ----

  ghost predicate GroupsOf(groups: map<Id, seq<Id>>, ids: seq<Id>, labels: Labels) {
    && (forall v :: v in groups <==> Members(ids, labels, v) != [])
    && (forall v | v in groups :: groups[v] == Members(ids, labels, v))
  }

  function Grouped(groups: map<Id, seq<Id>>, v: Id, id: Id): map<Id, seq<Id>> {
    groups[v := if v in groups then groups[v] + [id] else [id]]
  }

  function GroupsBy(ids: seq<Id>, labels: Labels): map<Id, seq<Id>> {
    if ids == [] then map[]
    else
      var last := ids[|ids| - 1];
      Grouped(GroupsBy(ids[..|ids| - 1], labels), LabelOf(labels, last), last)
  }

  lemma {:induction false} GroupsByAt(ids: seq<Id>, labels: Labels, v: Id)
    ensures v in GroupsBy(ids, labels) <==> Members(ids, labels, v) != []
    ensures v in GroupsBy(ids, labels) ==> GroupsBy(ids, labels)[v] == Members(ids, labels, v)
  {
    if ids != [] { GroupsByAt(ids[..|ids| - 1], labels, v); }
  }

  /** Grouping one by one gives, for every label, its members in order. */
  lemma {:induction false} GroupsByIs(ids: seq<Id>, labels: Labels)
    ensures GroupsOf(GroupsBy(ids, labels), ids, labels)
  {
    forall v ensures v in GroupsBy(ids, labels) <==> Members(ids, labels, v) != [] { GroupsByAt(ids, labels, v); }
    forall v | v in GroupsBy(ids, labels) ensures GroupsBy(ids, labels)[v] == Members(ids, labels, v) {
      GroupsByAt(ids, labels, v);
    }
  }

  method GroupByLabel(sortedIds: seq<Id>, labels: Labels) returns (groups: map<Id, seq<Id>>)
    ensures groups == GroupsBy(sortedIds, labels)
  {
    groups := map[];
    for i := 0 to |sortedIds|
      invariant groups == GroupsBy(sortedIds[..i], labels)
    {
      var id := sortedIds[i];
      var value := LabelOf(labels, id);
      assert sortedIds[..i + 1][..i] == sortedIds[..i];
      if value !in groups {
        groups := groups[value := [id]];
      } else {
        groups := groups[value := groups[value] + [id]];
      }
    }
    assert sortedIds[..|sortedIds|] == sortedIds;
  }

  lemma InOneMore(values: seq<seq<Id>>, value: seq<Id>, g: seq<Id>)
    ensures g in values + [value] <==> g in values || g == value
  {
  }

  lemma GroupOfLabel(groups: map<Id, seq<Id>>, ids: seq<Id>, labels: Labels, g: seq<Id>, v: Id)
    requires GroupsOf(groups, ids, labels) && v in groups && IsGroup(g, ids, labels)
    ensures LabelOf(labels, g[0]) == v <==> g == groups[v]
  {
    assert groups[v][0] in Members(ids, labels, v);
  }

  method GroupValues(sortedIds: seq<Id>, labels: Labels, groups: map<Id, seq<Id>>) returns (values: seq<seq<Id>>)
    requires GroupsOf(groups, sortedIds, labels)
    ensures NoDuplicates(values)
    ensures forall g :: g in values <==> IsGroup(g, sortedIds, labels)
  {
    forall v | v in groups ensures LabelOf(labels, groups[v][0]) == v {
      assert groups[v][0] in Members(sortedIds, labels, v);
    }
    values := [];
    var todo := groups.Keys;
    while todo != {}
      invariant todo <= groups.Keys
      invariant NoDuplicates(values)
      invariant forall g :: g in values <==>
        IsGroup(g, sortedIds, labels) && LabelOf(labels, g[0]) in groups.Keys - todo
    {
      var v :| v in todo;
      ghost var before := values;
      values := values + [groups[v]];
      forall g ensures g in values <==> g in before || g == groups[v] { InOneMore(before, groups[v], g); }
      forall g | IsGroup(g, sortedIds, labels) ensures LabelOf(labels, g[0]) == v <==> g == groups[v] {
        GroupOfLabel(groups, sortedIds, labels, g, v);
      }
      todo := todo - {v};
    }
  }

  lemma GroupLeIsATotalPreorder()
    ensures TotalPreorder(GroupLe)
  {
    LessIsATotalOrder();
  }

  method PickRepresentative(members: seq<Id>, adjacency: Graph) returns (rep: Id)
    requires members != []
    ensures rep == Representative(members, adjacency)
  {
    rep := members[0];
    var repDegree := Degree(adjacency, rep);
    LessIrreflexive(rep);
    for i := 0 to |members|
      invariant repDegree == Degree(adjacency, rep)
      invariant rep == if i == 0 then members[0] else Representative(members[..i], adjacency)
    {
      var id := members[i];
      var degree := Degree(adjacency, id);
      assert members[..i + 1][..i] == members[..i];
      if degree > repDegree || (degree == repDegree && Less(id, rep)) {
        rep := id;
        repDegree := degree;
      }
    }
    assert members[..|members|] == members;
  }

  /** b is a with every member given the key. */
  ghost predicate Gives(a: map<Id, string>, b: map<Id, string>, members: seq<Id>, key: string) {
    && (forall id :: id in b <==> id in a || id in members)
    && (forall id | id in b :: b[id] == if id in members then key else a[id])
  }

  method AssignMembers(assignments: map<Id, string>, members: seq<Id>, key: string) returns (r: map<Id, string>)
    ensures Gives(assignments, r, members, key)
  {
    r := assignments;
    for j := 0 to |members|
      invariant Gives(assignments, r, members[..j], key)
    {
      assert members[..j + 1] == members[..j] + [members[j]];
      r := r[members[j] := key];
    }
    assert members[..|members|] == members;
  }

  method PresentGroups(groups: seq<seq<Id>>, adjacency: Graph, nodeLabels: map<Id, Text>) returns (r: Result)
    requires forall k | 0 <= k < |groups| :: groups[k] != []
    requires forall k, l | 0 <= k < l < |groups| :: forall id | id in groups[k] :: id !in groups[l]
    ensures Presents(r, groups, adjacency, nodeLabels)
  {
    var assignments: map<Id, string> := map[];
    var communities: seq<Community> := [];
    for index := 0 to |groups|
      invariant |communities| == index
      invariant forall k | 0 <= k < index :: communities[k] == Describe(groups[k], k + 1, adjacency, nodeLabels)
      invariant Assigned(assignments, groups, index)
    {
      var members := groups[index];
      var communityKey := Key(index + 1);
      assignments := AssignMembers(assignments, members, communityKey);
      var rep := PickRepresentative(members, adjacency);
      communities := communities
        + [Community(communityKey, if rep in nodeLabels then nodeLabels[rep] else rep, |members|)];
    }
    r := Result(assignments, communities);
  }

  lemma GroupsAreDisjoint(groups: seq<seq<Id>>, ids: seq<Id>, labels: Labels)
    requires NoDuplicates(groups) && forall g :: g in groups <==> IsGroup(g, ids, labels)
    ensures forall k | 0 <= k < |groups| :: groups[k] != []
    ensures forall k, id | 0 <= k < |groups| && id in groups[k] ::
      id in ids && groups[k] == Members(ids, labels, LabelOf(labels, id))
    ensures forall k, l | 0 <= k < l < |groups| :: forall id | id in groups[k] :: id !in groups[l]
  {
    forall k | 0 <= k < |groups| ensures groups[k] != [] {
      assert IsGroup(groups[k], ids, labels);
    }
    forall k, id | 0 <= k < |groups| && id in groups[k]
      ensures id in ids && groups[k] == Members(ids, labels, LabelOf(labels, id))
    {
      assert IsGroup(groups[k], ids, labels);
      assert id in Members(ids, labels, LabelOf(labels, groups[k][0]));
    }
    forall k, l, id | 0 <= k < l < |groups| && id in groups[k] ensures id !in groups[l] {
      var g := Members(ids, labels, LabelOf(labels, id));
      assert groups[k] == g && groups[l] != g;
    }
  }

  method DetectByPropagation(nodes: seq<Node>, edges: seq<Edge>) returns (r: Result)
    ensures IsResult(nodes, edges, r)
  {
    var adjacency := BuildAdjacency(nodes, edges);
    var sortedIds := SortBy(Ids(nodes), LessEq);
    var labels := PropagateLabels(sortedIds, adjacency);
    var groups := GroupByLabel(sortedIds, labels);
    GroupsByIs(sortedIds, labels);
    var values := GroupValues(sortedIds, labels, groups);
    var orderedGroups := SortBy(values, GroupLe);
    SortedGroups(values);
    GroupsAreDisjoint(orderedGroups, sortedIds, labels);
    r := PresentGroups(orderedGroups, adjacency, NodeLabels(nodes));
    assert IsDetection(nodes, edges, orderedGroups, r);
  }

  lemma SortedGroups(values: seq<seq<Id>>)
    requires NoDuplicates(values)
    ensures Sorted(SortBy(values, GroupLe), GroupLe) && NoDuplicates(SortBy(values, GroupLe))
    ensures forall g :: g in SortBy(values, GroupLe) <==> g in values
  {
    GroupLeIsATotalPreorder();
    SortIsSorted(values, GroupLe);
    SameElements(SortBy(values, GroupLe), values);
    DistinctIsOrderFree(values, SortBy(values, GroupLe));
  }

  lemma {:induction false} OnceEach<T>(xs: seq<T>)
    ensures NoDuplicates(xs) <==> forall x | x in xs :: multiset(xs)[x] == 1
  {
    if xs != [] {
      var init, last := xs[..|xs| - 1], xs[|xs| - 1];
      assert xs == init + [last];
      OnceEach(init);
      if NoDuplicates(xs) {
        assert NoDuplicates(init);
        assert last !in init;
      }
      if forall x | x in xs :: multiset(xs)[x] == 1 {
        assert last in xs;
        forall x | x in init ensures multiset(init)[x] == 1 { assert x in xs; }
      }
    }
  }

  lemma DistinctIsOrderFree<T>(xs: seq<T>, ys: seq<T>)
    requires NoDuplicates(xs) && multiset(xs) == multiset(ys)
    ensures NoDuplicates(ys)
  {
    OnceEach(xs);
    OnceEach(ys);
    SameElements(xs, ys);
  }
}
