/** What the passes of label propagation do to the labels, node by node. */
module LabelPasses {
  import opened Text
  import opened Sorting
  import opened Communities
  import opened CommunityTheorems

  // ---- The best label ----

  ghost function Holders(ns: set<Id>, labels: Labels, v: Id): set<Id> {
    set n | n in ns && n in labels && labels[n] == v
  }

  /** The best label is one that most neighbors have, the smallest of these; it is empty when no neighbor has one. */
  lemma BestIff(ns: set<Id>, labels: Labels, v: Id)
    ensures IsBest(ns, labels, v) <==>
      if exists n :: n in ns && n in labels
      then
        && Holders(ns, labels, v) != {}
        && (forall n | n in ns && n in labels ::
              || |Holders(ns, labels, labels[n])| < |Holders(ns, labels, v)|
              || (|Holders(ns, labels, labels[n])| == |Holders(ns, labels, v)|
                  && (v == labels[n] || Less(v, labels[n]))))
      else v == []
  {
    forall u ensures Votes(ns, labels, u) == |Holders(ns, labels, u)| {
      assert Voters(ns, labels, u) == Holders(ns, labels, u);
    }
    forall u ensures Votes(ns, labels, u) > 0 <==> exists n :: n in ns && n in labels && labels[n] == u {
      VotedLabels(ns, labels, u);
    }
    forall n | n in ns && n in labels ensures Votes(ns, labels, labels[n]) > 0 {
      VotedLabels(ns, labels, labels[n]);
    }
    assert Holders(ns, labels, v) != {} <==> Votes(ns, labels, v) > 0;
  }

  lemma OnlyVoters(ns: set<Id>, labels: Labels, labels': Labels, v: Id)
    requires forall n | n in ns :: (n in labels <==> n in labels') && (n in labels ==> labels[n] == labels'[n])
    ensures IsBest(ns, labels, v) <==> IsBest(ns, labels', v)
  {
    forall u ensures Votes(ns, labels, u) == Votes(ns, labels', u) {
      assert Voters(ns, labels, u) == Voters(ns, labels', u);
    }
  }

  // ---- One pass ----

  /** The neighbors of a node are other nodes. */
  ghost predicate NeighborsAreOver(graph: Graph, ids: seq<Id>, id: Id) {
    id in graph && id !in graph[id] && forall n | n in graph[id] :: n in ids
  }

  ghost predicate Over(graph: Graph, ids: seq<Id>) {
    forall id {:trigger NeighborsAreOver(graph, ids, id)} | id in ids :: NeighborsAreOver(graph, ids, id)
  }

  ghost predicate Labelled(labels: Labels, ids: seq<Id>) { labels.Keys == set id | id in ids }

  /** What node id sees during a pass: the new labels of smaller ids and the old labels of the others. */
  function Seen(before: Labels, after: Labels, id: Id): Labels {
    map x | x in before && x in after :: if Less(x, id) then after[x] else before[x]
  }

  /** From `was` to the best label among the neighbors, unless that label is empty. */
  ghost predicate Adopts(ns: set<Id>, labels: Labels, was: Id, now: Id) {
    exists v :: IsBest(ns, labels, v) && now == if v == [] then was else v
  }

  ghost predicate Follows(graph: Graph, before: Labels, after: Labels, id: Id) {
    && id in graph && id in before && id in after
    && if graph[id] == {} then after[id] == before[id]
       else Adopts(graph[id], Seen(before, after, id), before[id], after[id])
  }

  /**
    One pass over the sorted ids: every node with neighbors adopts the best label among
    them, reading labels that smaller ids have already replaced; all others keep theirs.
   */
  ghost predicate IsPass(graph: Graph, ids: seq<Id>, before: Labels, after: Labels) {
    && Labelled(before, ids) && Labelled(after, ids)
    && forall id {:trigger Follows(graph, before, after, id)} | id in ids :: Follows(graph, before, after, id)
  }

  /** In the middle of a pass: a node that is done has followed, and any other is as it was. */
  ghost predicate Placed(graph: Graph, done: seq<Id>, before: Labels, now: Labels, id: Id) {
    if id in done then Follows(graph, before, now, id) else id in before && id in now && now[id] == before[id]
  }

  ghost predicate PassUpTo(graph: Graph, ids: seq<Id>, done: seq<Id>, before: Labels, now: Labels) {
    && Labelled(before, ids) && Labelled(now, ids)
    && forall id {:trigger Placed(graph, done, before, now, id)} | id in ids :: Placed(graph, done, before, now, id)
  }

  ghost predicate Between(ids: seq<Id>, done: seq<Id>, x: Id) {
    && x in ids
    && (forall d | d in done :: LessEq(d, x))
    && (forall y | y in ids && y !in done :: LessEq(x, y))
  }

  lemma SeenNow(
      graph: Graph, ids: seq<Id>, done: seq<Id>, before: Labels, now: Labels, x: Id, n: Id)
    requires PassUpTo(graph, ids, done, before, now) && Between(ids, done, x) && n in ids && n != x
    ensures n in now && n in Seen(before, now, x) && Seen(before, now, x)[n] == now[n]
  {
    LessTotal(n, x);
    assert Placed(graph, done, before, now, n);
    if Less(x, n) && Less(n, x) { LessTransitive(x, n, x); LessIrreflexive(x); }
  }

  lemma BestIsAsSeen(graph: Graph, ids: seq<Id>, done: seq<Id>, before: Labels, now: Labels, x: Id, v: Id)
    requires PassUpTo(graph, ids, done, before, now) && Between(ids, done, x) && NeighborsAreOver(graph, ids, x)
    ensures IsBest(graph[x], Seen(before, now, x), v) <==> IsBest(graph[x], now, v)
  {
    forall n | n in graph[x] ensures n in now && n in Seen(before, now, x) && Seen(before, now, x)[n] == now[n] {
      SeenNow(graph, ids, done, before, now, x, n);
    }
    OnlyVoters(graph[x], Seen(before, now, x), now, v);
  }

  /** Changing the label of x changes nothing for x itself and for smaller nodes. */
  lemma SeenStays(before: Labels, now: Labels, x: Id, next: Id, d: Id)
    requires x in now && !Less(x, d)
    ensures Seen(before, now[x := next], d) == Seen(before, now, d)
  {
  }

  lemma FollowsStays(graph: Graph, before: Labels, now: Labels, x: Id, next: Id, d: Id)
    requires x in now && d != x && LessEq(d, x) && Follows(graph, before, now, d)
    ensures Follows(graph, before, now[x := next], d)
  {
    if Less(x, d) { LessTransitive(x, d, x); LessIrreflexive(x); }
    SeenStays(before, now, x, next, d);
  }

  /** The label `next` that relabelling gives node x. */
  ghost predicate IsNext(graph: Graph, now: Labels, x: Id, next: Id)
    requires x in graph && x in now
  {
    if graph[x] == {} then next == now[x] else Adopts(graph[x], now, now[x], next)
  }

  lemma FirstTime(
      graph: Graph, ids: seq<Id>, done: seq<Id>, before: Labels, now: Labels, x: Id, next: Id)
    requires PassUpTo(graph, ids, done, before, now) && Between(ids, done, x) && NeighborsAreOver(graph, ids, x)
    requires x in now && IsNext(graph, now, x, next) && x !in done
    ensures Follows(graph, before, now[x := next], x)
  {
    LessIrreflexive(x);
    SeenStays(before, now, x, next, x);
    assert Placed(graph, done, before, now, x);
    if graph[x] != {} {
      var v :| IsBest(graph[x], now, v) && next == if v == [] then now[x] else v;
      BestIsAsSeen(graph, ids, done, before, now, x, v);
    }
  }

  lemma SecondTime(
      graph: Graph, ids: seq<Id>, done: seq<Id>, before: Labels, now: Labels, x: Id, next: Id)
    requires PassUpTo(graph, ids, done, before, now) && Between(ids, done, x) && NeighborsAreOver(graph, ids, x)
    requires x in now && IsNext(graph, now, x, next) && x in done
    ensures next == now[x]
  {
    assert Placed(graph, done, before, now, x);
    if graph[x] != {} {
      var u :| IsBest(graph[x], Seen(before, now, x), u) && now[x] == if u == [] then before[x] else u;
      var v :| IsBest(graph[x], now, v) && next == if v == [] then now[x] else v;
      BestIsAsSeen(graph, ids, done, before, now, x, u);
      BestIsUnique(graph[x], now, u, v);
    }
  }

  lemma PassStep(graph: Graph, ids: seq<Id>, done: seq<Id>, before: Labels, now: Labels, x: Id, next: Id)
    requires PassUpTo(graph, ids, done, before, now) && Between(ids, done, x) && NeighborsAreOver(graph, ids, x)
    requires x in now && IsNext(graph, now, x, next)
    ensures PassUpTo(graph, ids, done + [x], before, now[x := next])
  {
    if x in done {
      SecondTime(graph, ids, done, before, now, x, next);
      assert now[x := next] == now;
    } else {
      FirstTime(graph, ids, done, before, now, x, next);
    }
    forall d | d in ids ensures Placed(graph, done + [x], before, now[x := next], d) {
      assert Placed(graph, done, before, now, d);
      if d != x && d in done { FollowsStays(graph, before, now, x, next, d); }
    }
  }

  lemma RelabelIsNext(graph: Graph, labels: Labels, x: Id) returns (next: Id)
    requires x in graph && x in labels
    ensures IsNext(graph, labels, x, next) && Relabel(x, graph, labels) == labels[x := next]
  {
    assert labels[x := labels[x]] == labels;
    if graph[x] == {} {
      next := labels[x];
    } else {
      var v := BestOf(graph[x], labels);
      next := if v == [] then labels[x] else v;
      assert IsBest(graph[x], labels, v) && next == if v == [] then labels[x] else v;
    }
  }

  lemma HeadIsBetween(ids: seq<Id>, n: nat)
    requires n < |ids| && Sorted(ids, LessEq)
    ensures Between(ids, ids[..n], ids[n])
  {
    assert ids == ids[..n] + ids[n..];
    forall y | y in ids && y !in ids[..n] ensures LessEq(ids[n], y) {
      assert y in ids[n..];
      var i :| n <= i < |ids| && ids[i] == y;
    }
  }

  lemma RelabelStep(graph: Graph, ids: seq<Id>, done: seq<Id>, before: Labels, now: Labels, x: Id)
    requires PassUpTo(graph, ids, done, before, now) && Between(ids, done, x) && NeighborsAreOver(graph, ids, x)
    ensures PassUpTo(graph, ids, done + [x], before, Relabel(x, graph, now))
  {
    var next := RelabelIsNext(graph, now, x);
    PassStep(graph, ids, done, before, now, x, next);
  }

  lemma NextStep(graph: Graph, ids: seq<Id>, n: nat, before: Labels, now: Labels)
    requires n < |ids| && Sorted(ids, LessEq) && NeighborsAreOver(graph, ids, ids[n])
    requires PassUpTo(graph, ids, ids[..n], before, now)
    ensures PassUpTo(graph, ids, ids[..n + 1], before, Relabel(ids[n], graph, now))
  {
    HeadIsBetween(ids, n);
    RelabelStep(graph, ids, ids[..n], before, now, ids[n]);
    assert ids[..n] + [ids[n]] == ids[..n + 1];
  }

  lemma AllDone(graph: Graph, ids: seq<Id>, before: Labels, now: Labels)
    requires PassUpTo(graph, ids, ids[..|ids|], before, now)
    ensures IsPass(graph, ids, before, now)
  {
    assert ids[..|ids|] == ids;
    forall id | id in ids ensures Follows(graph, before, now, id) {
      assert Placed(graph, ids, before, now, id);
    }
  }

  lemma {:induction false} SweepPasses(graph: Graph, ids: seq<Id>, n: nat, before: Labels, now: Labels)
    requires n <= |ids| && Sorted(ids, LessEq) && Over(graph, ids)
    requires PassUpTo(graph, ids, ids[..n], before, now)
    ensures IsPass(graph, ids, before, Sweep(ids[n..], graph, now))
    decreases |ids| - n
  {
    if n == |ids| {
      AllDone(graph, ids, before, now);
    } else {
      assert NeighborsAreOver(graph, ids, ids[n]);
      NextStep(graph, ids, n, before, now);
      SweepPasses(graph, ids, n + 1, before, Relabel(ids[n], graph, now));
      assert ids[n..][1..] == ids[n + 1..];
    }
  }

  /** Relabelling the sorted ids in place, one after the other, is such a pass. */
  lemma SweepIsAPass(graph: Graph, ids: seq<Id>, labels: Labels)
    requires Sorted(ids, LessEq) && Over(graph, ids) && Labelled(labels, ids)
    ensures IsPass(graph, ids, labels, Sweep(ids, graph, labels))
  {
    SweepPasses(graph, ids, 0, labels, labels);
    assert ids[0..] == ids;
  }

  lemma PassIsUniqueAt(graph: Graph, before: Labels, after: Labels, after': Labels, id: Id)
    requires Follows(graph, before, after, id) && Follows(graph, before, after', id)
    requires after.Keys == after'.Keys && forall x | x in after && Less(x, id) :: after[x] == after'[x]
    ensures after[id] == after'[id]
  {
    if graph[id] != {} {
      var seen := Seen(before, after, id);
      assert seen == Seen(before, after', id);
      var u :| IsBest(graph[id], seen, u) && after[id] == if u == [] then before[id] else u;
      var v :| IsBest(graph[id], seen, v) && after'[id] == if v == [] then before[id] else v;
      BestIsUnique(graph[id], seen, u, v);
    }
  }

  lemma SmallerIsEarlier(ids: seq<Id>, n: nat, x: Id) returns (i: nat)
    requires n < |ids| && Sorted(ids, LessEq) && x in ids && Less(x, ids[n])
    ensures i < n && ids[i] == x
  {
    i :| 0 <= i < |ids| && ids[i] == x;
    if n <= i {
      LessIrreflexive(x);
      assert LessEq(ids[n], x);
      if Less(ids[n], x) { LessTransitive(x, ids[n], x); }
    }
  }

  lemma {:induction false} PassesAgreeAt(
      graph: Graph, ids: seq<Id>, before: Labels, after: Labels, after': Labels, n: nat)
    requires Sorted(ids, LessEq) && n < |ids|
    requires IsPass(graph, ids, before, after) && IsPass(graph, ids, before, after')
    ensures after[ids[n]] == after'[ids[n]]
  {
    forall x | x in after && Less(x, ids[n]) ensures after[x] == after'[x] {
      var i := SmallerIsEarlier(ids, n, x);
      PassesAgreeAt(graph, ids, before, after, after', i);
    }
    assert Follows(graph, before, after, ids[n]) && Follows(graph, before, after', ids[n]);
    PassIsUniqueAt(graph, before, after, after', ids[n]);
  }

  lemma PassesAgree(graph: Graph, ids: seq<Id>, before: Labels, after: Labels, after': Labels)
    requires Sorted(ids, LessEq) && IsPass(graph, ids, before, after) && IsPass(graph, ids, before, after')
    ensures after == after'
  {
    forall x | x in after ensures after[x] == after'[x] {
      var n :| 0 <= n < |ids| && ids[n] == x;
      PassesAgreeAt(graph, ids, before, after, after', n);
    }
  }

  /** And nothing else is one. */
  lemma PassIff(graph: Graph, ids: seq<Id>, before: Labels, after: Labels)
    requires Sorted(ids, LessEq) && Over(graph, ids) && Labelled(before, ids)
    ensures IsPass(graph, ids, before, after) <==> after == Sweep(ids, graph, before)
  {
    SweepIsAPass(graph, ids, before);
    if IsPass(graph, ids, before, after) { PassesAgree(graph, ids, before, after, Sweep(ids, graph, before)); }
  }

  // ---- All passes ----

  ghost predicate PassAt(graph: Graph, ids: seq<Id>, history: seq<Labels>, p: nat)
    requires 0 < p < |history|
  {
    IsPass(graph, ids, history[p - 1], history[p])
  }

  predicate ChangeAt(history: seq<Labels>, p: nat)
    requires 0 < p < |history|
  {
    history[p - 1] != history[p]
  }

  /** A run of passes, all of which changed some label, but perhaps the last. */
  ghost predicate Passes(graph: Graph, ids: seq<Id>, history: seq<Labels>) {
    && history != []
    && (forall p {:trigger PassAt(graph, ids, history, p)} | 0 < p < |history| :: PassAt(graph, ids, history, p))
    && (forall p {:trigger ChangeAt(history, p)} | 0 < p < |history| - 1 :: ChangeAt(history, p))
  }

  /**
    The labels before each pass, and those after the last one: at most twenty passes, each
    but the last changing some label, and fewer than twenty only if the last changed none.
   */
  ghost predicate IsPropagation(graph: Graph, ids: seq<Id>, history: seq<Labels>) {
    && 1 < |history| <= 21
    && history[0] == (map id | id in ids :: id)
    && Passes(graph, ids, history)
    && (|history| < 21 ==> history[|history| - 2] == history[|history| - 1])
  }

  /** Each node with neighbors has the best label among them. */
  ghost predicate Settled(graph: Graph, ids: seq<Id>, labels: Labels) {
    forall id | id in ids && id in labels && id in graph && graph[id] != {} ::
      Adopts(graph[id], labels, labels[id], labels[id])
  }

  lemma KeepsIff(graph: Graph, labels: Labels, id: Id)
    requires id in graph && id in labels
    ensures Follows(graph, labels, labels, id) <==>
      (graph[id] != {} ==> Adopts(graph[id], labels, labels[id], labels[id]))
  {
    assert Seen(labels, labels, id) == labels;
  }

  /** A pass changes nothing exactly when each node with neighbors already has the best label among them. */
  lemma ChangesNothingIff(graph: Graph, ids: seq<Id>, labels: Labels)
    requires Over(graph, ids) && Labelled(labels, ids)
    ensures IsPass(graph, ids, labels, labels) <==> Settled(graph, ids, labels)
  {
    forall id | id in ids
      ensures id in graph && id in labels
      ensures Follows(graph, labels, labels, id) <==>
        (graph[id] != {} ==> Adopts(graph[id], labels, labels[id], labels[id]))
    {
      assert NeighborsAreOver(graph, ids, id);
      KeepsIff(graph, labels, id);
    }
  }

  lemma OneMorePass(graph: Graph, ids: seq<Id>, history: seq<Labels>, next: Labels)
    requires Passes(graph, ids, history) && IsPass(graph, ids, history[|history| - 1], next)
    requires |history| > 1 ==> ChangeAt(history, |history| - 1)
    ensures Passes(graph, ids, history + [next])
  {
    var longer := history + [next];
    forall p | 0 < p < |longer| ensures PassAt(graph, ids, longer, p) {
      if p < |history| { assert PassAt(graph, ids, history, p); }
    }
    forall p | 0 < p < |longer| - 1 ensures ChangeAt(longer, p) {
      assert ChangeAt(history, p);
    }
  }

  lemma SweepOnce(n: nat, graph: Graph, ids: seq<Id>, history: seq<Labels>, labels: Labels)
      returns (longer: seq<Labels>, next: Labels)
    requires Sorted(ids, LessEq) && Over(graph, ids) && n > 0
    requires Passes(graph, ids, history) && (|history| > 1 ==> ChangeAt(history, |history| - 1))
    requires labels == history[|history| - 1] && Labelled(labels, ids)
    ensures Passes(graph, ids, longer) && Labelled(next, ids)
    ensures |longer| == |history| + 1 && longer[0] == history[0]
    ensures longer[|history| - 1] == labels && longer[|history|] == next
    ensures next != labels ==> ChangeAt(longer, |history|)
    ensures Iterate(n, ids, graph, labels) == Iterate(n - 1, ids, graph, next)
    ensures next == labels ==> Iterate(n, ids, graph, labels) == labels
  {
    next := Sweep(ids, graph, labels);
    SweepIsAPass(graph, ids, labels);
    OneMorePass(graph, ids, history, next);
    longer := history + [next];
    if next == labels { FixedPoint(n, ids, graph, labels); }
  }

  /** A history that propagation stops with. */
  ghost predicate Stopped(graph: Graph, ids: seq<Id>, history: seq<Labels>, first: Labels, last: Labels) {
    && 1 < |history| <= 21 && history[0] == first && history[|history| - 1] == last
    && Passes(graph, ids, history)
    && (|history| < 21 ==> history[|history| - 2] == last)
  }

  lemma {:induction false} IterateHistory(
      n: nat, graph: Graph, ids: seq<Id>, history: seq<Labels>, labels: Labels) returns (longer: seq<Labels>)
    requires Sorted(ids, LessEq) && Over(graph, ids)
    requires n > 0 && |history| + n == 21
    requires Passes(graph, ids, history) && (|history| > 1 ==> ChangeAt(history, |history| - 1))
    requires labels == history[|history| - 1] && Labelled(labels, ids)
    ensures Stopped(graph, ids, longer, history[0], Iterate(n, ids, graph, labels))
    decreases n
  {
    var next;
    longer, next := SweepOnce(n, graph, ids, history, labels);
    if next == labels || n == 1 {
      assert Stopped(graph, ids, longer, history[0], next);
    } else {
      longer := IterateHistory(n - 1, graph, ids, longer, next);
    }
  }

  /** When propagation stops before the twentieth pass, each node with neighbors has the best label among them. */
  lemma StoppingMeansSettled(graph: Graph, ids: seq<Id>, history: seq<Labels>)
    requires Over(graph, ids) && IsPropagation(graph, ids, history) && |history| < 21
    ensures Settled(graph, ids, history[|history| - 1])
  {
    assert PassAt(graph, ids, history, |history| - 1);
    ChangesNothingIff(graph, ids, history[|history| - 1]);
  }

  lemma GraphIsOver(nodes: seq<Node>, edges: seq<Edge>, ids: seq<Id>)
    requires multiset(ids) == multiset(Ids(nodes))
    ensures Over(Adjacency(nodes, edges), ids)
  {
    SameElements(ids, Ids(nodes));
    var graph := Adjacency(nodes, edges);
    forall id | id in ids ensures NeighborsAreOver(graph, ids, id) {}
  }

  /** The labels the communities are made from are the last of such a propagation. */
  lemma FinalLabelsArePropagated(nodes: seq<Node>, edges: seq<Edge>) returns (history: seq<Labels>)
    ensures IsPropagation(Adjacency(nodes, edges), SortBy(Ids(nodes), LessEq), history)
    ensures history[|history| - 1] == FinalLabels(nodes, edges)
    ensures |history| < 21 ==>
      Settled(Adjacency(nodes, edges), SortBy(Ids(nodes), LessEq), FinalLabels(nodes, edges))
  {
    var ids := SortBy(Ids(nodes), LessEq);
    GraphIsOver(nodes, edges, ids);
    SortedIds(nodes);
    history := IterateHistory(20, Adjacency(nodes, edges), ids, [OwnLabels(ids)], OwnLabels(ids));
    if |history| < 21 { StoppingMeansSettled(Adjacency(nodes, edges), ids, history); }
  }

  lemma VoterHasALabel(ns: set<Id>, labels: Labels, was: Id, now: Id)
    requires Adopts(ns, labels, was, now) && ns != {} && ns <= labels.Keys
    requires forall n | n in ns :: labels[n] != []
    ensures IsBest(ns, labels, now)
  {
    var v :| IsBest(ns, labels, v) && now == if v == [] then was else v;
    var n :| n in ns;
    VotedLabels(ns, labels, labels[n]);
    if v == [] { VotedLabels(ns, labels, v); }
  }

  /** If no id is empty, settled labels are the best ones outright. */
  lemma SettledIsBest(nodes: seq<Node>, edges: seq<Edge>, id: Id)
    requires Settled(Adjacency(nodes, edges), SortBy(Ids(nodes), LessEq), FinalLabels(nodes, edges))
    requires [] !in Ids(nodes) && id in Ids(nodes) && Neighbors(nodes, edges, id) != {}
    ensures id in FinalLabels(nodes, edges)
    ensures IsBest(Neighbors(nodes, edges, id), FinalLabels(nodes, edges), FinalLabels(nodes, edges)[id])
  {
    var ids, labels := SortBy(Ids(nodes), LessEq), FinalLabels(nodes, edges);
    LabelsStayInTheirComponent(nodes, edges, PASSES);
    SameElements(ids, Ids(nodes));
    forall n | n in ids ensures n in labels && labels[n] != [] {
      assert LabelIsLocal(ids, Adjacency(nodes, edges), labels, n);
    }
    VoterHasALabel(Neighbors(nodes, edges, id), labels, labels[id], labels[id]);
  }

  // ---- Pairs ----

  lemma OnlyVote(n: Id, labels: Labels, v: Id)
    requires n in labels
    ensures IsBest({n}, labels, v) <==> v == labels[n]
  {
    BestIff({n}, labels, v);
    assert n in Holders({n}, labels, labels[n]);
    if v != labels[n] { assert Holders({n}, labels, v) == {}; }
  }

  lemma PairAfterAPass(graph: Graph, before: Labels, after: Labels, a: Id, b: Id)
    requires Less(a, b) && a in graph && b in graph && graph[a] == {b} && graph[b] == {a}
    requires Follows(graph, before, after, a) && Follows(graph, before, after, b)
    ensures after[a] == after[b]
  {
    LessIrreflexive(a);
    if Less(b, a) { LessTransitive(a, b, a); }
    assert Seen(before, after, a)[b] == before[b] && Seen(before, after, b)[a] == after[a];
    var u :| IsBest({b}, Seen(before, after, a), u) && after[a] == if u == [] then before[a] else u;
    var v :| IsBest({a}, Seen(before, after, b), v) && after[b] == if v == [] then before[b] else v;
    OnlyVote(b, Seen(before, after, a), u);
    OnlyVote(a, Seen(before, after, b), v);
  }

  /** Two nodes joined to each other and to no other node always share a community. */
  lemma PairsShareACommunity(nodes: seq<Node>, edges: seq<Edge>, r: Result, a: Id, b: Id)
    requires IsResult(nodes, edges, r) && a in Ids(nodes) && b in Ids(nodes) && a != b
    requires forall x | x in Ids(nodes) && x != a :: (Edge(a, x) in edges || Edge(x, a) in edges) <==> x == b
    requires forall x | x in Ids(nodes) && x != b :: (Edge(b, x) in edges || Edge(x, b) in edges) <==> x == a
    ensures a in r.assignments && b in r.assignments && r.assignments[a] == r.assignments[b]
  {
    var history := FinalLabelsArePropagated(nodes, edges);
    var graph, ids := Adjacency(nodes, edges), SortBy(Ids(nodes), LessEq);
    SameElements(ids, Ids(nodes));
    assert graph[a] == {b} && graph[b] == {a};
    assert PassAt(graph, ids, history, |history| - 1);
    PairInAPass(graph, ids, history[|history| - 2], history[|history| - 1], a, b);
    CommunitiesAreLabelClasses(nodes, edges, r);
  }

  lemma PairInAPass(graph: Graph, ids: seq<Id>, before: Labels, after: Labels, a: Id, b: Id)
    requires IsPass(graph, ids, before, after) && a in ids && b in ids && a != b
    requires a in graph && b in graph && graph[a] == {b} && graph[b] == {a}
    ensures LabelOf(after, a) == LabelOf(after, b)
  {
    assert Follows(graph, before, after, a) && Follows(graph, before, after, b);
    LessTotal(a, b);
    if Less(a, b) { PairAfterAPass(graph, before, after, a, b); } else { PairAfterAPass(graph, before, after, b, a); }
  }

  // ---- Titles and order ----

  /** A community's title is that of its member of highest degree, the smallest of these. */
  lemma TitlesAreOfRepresentatives(nodes: seq<Node>, edges: seq<Edge>, r: Result, k: nat) returns (n: Node)
    requires DistinctIds(nodes) && IsResult(nodes, edges, r) && k < |r.communities|
    ensures n in nodes && n.id in r.assignments && r.assignments[n.id] == Key(k + 1)
    ensures r.communities[k].title == n.title
    ensures forall id | id in r.assignments && r.assignments[id] == Key(k + 1) ::
      || |Neighbors(nodes, edges, id)| < |Neighbors(nodes, edges, n.id)|
      || (|Neighbors(nodes, edges, id)| == |Neighbors(nodes, edges, n.id)| && (n.id == id || Less(n.id, id)))
  {
    var groups :| IsDetection(nodes, edges, groups, r);
    var graph, rep := Adjacency(nodes, edges), Representative(groups[k], Adjacency(nodes, edges));
    SharersAreTheGroup(groups, r.assignments, k);
    CommunitiesAreLabelClasses(nodes, edges, r);
    IdsOf(nodes);
    NodeLabelsOf(nodes);
    n :| n in nodes && n.id == rep;
    forall id | id in groups[k] ensures Degree(graph, id) == |Neighbors(nodes, edges, id)| {}
  }

  lemma {:induction false} MembersAreSorted(ids: seq<Id>, labels: Labels, v: Id)
    requires Sorted(ids, LessEq)
    ensures Sorted(Members(ids, labels, v), LessEq)
  {
    if ids != [] {
      var init, last := ids[..|ids| - 1], ids[|ids| - 1];
      MembersAreSorted(init, labels, v);
      forall m | m in Members(init, labels, v) ensures LessEq(m, last) {
        var i :| 0 <= i < |init| && init[i] == m;
        assert LessEq(ids[i], last);
      }
    }
  }

  /** The first member of a group is smaller than all members of a later group of the same size. */
  lemma FirstMembers(groups: seq<seq<Id>>, ids: seq<Id>, labels: Labels, k: nat, l: nat, b: Id)
    requires Sorted(ids, LessEq) && AreGroupsInOrder(groups, ids, labels)
    requires k < l < |groups| && |groups[k]| == |groups[l]| && b in groups[l]
    ensures groups[k] != [] && Less(groups[k][0], b)
  {
    GroupsAreDisjoint(groups, ids, labels);
    var g, h := groups[k], groups[l];
    assert IsGroup(h, ids, labels);
    MembersAreSorted(ids, labels, LabelOf(labels, h[0]));
    assert GroupLe(g, h) && LessEq(g[0], h[0]);
    assert g[0] in g && h[0] !in g;
    LeastFirst(h, b);
    if h[0] != b { LessTransitive(g[0], h[0], b); }
  }

  lemma LeastFirst(h: seq<Id>, b: Id)
    requires Sorted(h, LessEq) && b in h
    ensures LessEq(h[0], b)
  {
  }

  /** Of two communities of one size the one with the smallest member comes first. */
  lemma TiesBySmallestMember(nodes: seq<Node>, edges: seq<Edge>, r: Result, k: nat, l: nat) returns (a: Id)
    requires IsResult(nodes, edges, r) && k < l < |r.communities|
    requires r.communities[k].count == r.communities[l].count
    ensures a in r.assignments && r.assignments[a] == Key(k + 1)
    ensures forall b | b in r.assignments && r.assignments[b] == Key(l + 1) :: Less(a, b)
  {
    var groups :| IsDetection(nodes, edges, groups, r);
    var ids, labels := SortBy(Ids(nodes), LessEq), FinalLabels(nodes, edges);
    SortedIds(nodes);
    GroupSize(groups, Adjacency(nodes, edges), NodeLabels(nodes), r, k);
    GroupSize(groups, Adjacency(nodes, edges), NodeLabels(nodes), r, l);
    a := First(groups, ids, labels, r, k, l);
  }

  lemma SortedIds(nodes: seq<Node>)
    ensures Sorted(SortBy(Ids(nodes), LessEq), LessEq)
  {
    LessIsATotalOrder();
    SortIsSorted(Ids(nodes), LessEq);
  }

  lemma GroupSize(groups: seq<seq<Id>>, graph: Graph, titles: map<Id, Text>, r: Result, k: nat)
    requires Presents(r, groups, graph, titles) && k < |r.communities|
    ensures |groups| == |r.communities| && r.communities[k].count == |groups[k]|
  {
  }

  lemma First(groups: seq<seq<Id>>, ids: seq<Id>, labels: Labels, r: Result, k: nat, l: nat) returns (a: Id)
    requires Sorted(ids, LessEq) && AreGroupsInOrder(groups, ids, labels)
    requires Assigned(r.assignments, groups, |groups|)
    requires k < l < |groups| && |groups[k]| == |groups[l]|
    ensures a in r.assignments && r.assignments[a] == Key(k + 1)
    ensures forall b | b in r.assignments && r.assignments[b] == Key(l + 1) :: Less(a, b)
  {
    SharersAreTheGroup(groups, r.assignments, k);
    SharersAreTheGroup(groups, r.assignments, l);
    assert IsGroup(groups[k], ids, labels);
    a := groups[k][0];
    forall b | b in r.assignments && r.assignments[b] == Key(l + 1) ensures Less(a, b) {
      FirstMembers(groups, ids, labels, k, l, b);
    }
  }
}
