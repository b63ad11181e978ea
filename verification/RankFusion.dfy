/** Reciprocal rank fusion of two ranked lists (packages/rag-core/src/rrf-fusion.ts), over the reals. */
module RankFusion {
  import opened Numbers
  import Sorting

  type ChunkId(==, !new)
  type Payload(==, !new)

  datatype Hit = Hit(id: ChunkId, risk: bool, payload: Payload)

  datatype Fused = Fused(hit: Hit, score: real)

  /** A JavaScript map: entries by key, and the keys in the order they were first set. */
  datatype FusedMap = FusedMap(order: seq<ChunkId>, byId: map<ChunkId, Fused>)

  const EMPTY := FusedMap([], map[])

  predicate Distinct<T(==)>(xs: seq<T>) { forall i, j | 0 <= i < j < |xs| :: xs[i] != xs[j] }

  predicate Valid(f: FusedMap) {
    && Distinct(f.order)
    && (forall id | id in f.order :: id in f.byId)
    && (forall id | id in f.byId :: id in f.order && f.byId[id].hit.id == id)
  }

  // ---- One pass ----

  /** Adds a contribution to the entry of the hit's chunk; the risk flag sticks. */
  function Merge(f: FusedMap, hit: Hit, c: real): FusedMap {
    if hit.id in f.byId then
      var e := f.byId[hit.id];
      f.(byId := f.byId[hit.id := Fused(e.hit.(risk := e.hit.risk || hit.risk), e.score + c)])
    else FusedMap(f.order + [hit.id], f.byId[hit.id := Fused(hit, c)])
  }

  predicate Mentions(results: seq<Hit>, id: ChunkId) { exists i | 0 <= i < |results| :: results[i].id == id }

  function Added(f: FusedMap, results: seq<Hit>, k: real): FusedMap
    requires k >= 0.0
  {
    if results == [] then f
    else
      var n := |results| - 1;
      var before := Added(f, results[..n], k);
      if Mentions(results[..n], results[n].id) then before else Merge(before, results[n], 1.0 / (k + (n + 1) as real))
  }

  // ---- What a list says of a chunk ----

  /** The position, from 1, where the chunk is first listed; 0 when it is not. */
  function FirstRank(results: seq<Hit>, id: ChunkId): (r: nat)
    ensures r <= |results|
    ensures r == 0 <==> !Mentions(results, id)
    ensures r > 0 ==> results[r - 1].id == id && !Mentions(results[..r - 1], id)
  {
    if results == [] then 0
    else
      var n := |results| - 1;
      var r := FirstRank(results[..n], id);
      if r > 0 then
        assert results[..n][r - 1] == results[r - 1] && results[..n][..r - 1] == results[..r - 1];
        r
      else if results[n].id == id then n + 1
      else
        MentionsLast(results, id);
        0
  }

  lemma MentionsLast(results: seq<Hit>, id: ChunkId)
    requires results != []
    ensures Mentions(results, id) <==> Mentions(results[..|results| - 1], id) || results[|results| - 1].id == id
  {
    var front := results[..|results| - 1];
    if i :| 0 <= i < |front| && front[i].id == id { assert results[i].id == id; }
    if i :| 0 <= i < |results| && results[i].id == id { assert i < |front| ==> front[i].id == id; }
  }

  function Reciprocal(k: real, rank: nat): real
    requires k >= 0.0
  {
    if rank == 0 then 0.0 else 1.0 / (k + rank as real)
  }

  predicate RiskyAt(results: seq<Hit>, rank: nat) { 0 < rank <= |results| && results[rank - 1].risk }

  predicate FirstRisky(results: seq<Hit>, id: ChunkId) { RiskyAt(results, FirstRank(results, id)) }

  function ScoreIn(f: FusedMap, id: ChunkId): real { if id in f.byId then f.byId[id].score else 0.0 }

  predicate RiskyIn(f: FusedMap, id: ChunkId) { id in f.byId && f.byId[id].hit.risk }

  /** A pass adds, for each chunk listed, the reciprocal of its first rank, and its first risk flag. */
  predicate Adds(f: FusedMap, g: FusedMap, results: seq<Hit>, k: real, id: ChunkId)
    requires k >= 0.0
  {
    && (id in g.byId <==> id in f.byId || Mentions(results, id))
    && ScoreIn(g, id) == ScoreIn(f, id) + Reciprocal(k, FirstRank(results, id))
    && (RiskyIn(g, id) <==> RiskyIn(f, id) || FirstRisky(results, id))
  }

  lemma FirstRiskGrows(results: seq<Hit>, id: ChunkId, n: nat, r: nat)
    requires n + 1 == |results| && r == FirstRank(results[..n], id)
    ensures FirstRisky(results, id) <==>
      if r > 0 then RiskyAt(results[..n], r) else results[n].id == id && results[n].risk
  {
    assert r > 0 ==> results[..n][r - 1] == results[r - 1];
  }

  lemma {:induction false} AddedIsValid(f: FusedMap, results: seq<Hit>, k: real)
    requires Valid(f) && k >= 0.0
    ensures Valid(Added(f, results, k))
  {
    if results != [] {
      var n := |results| - 1;
      AddedIsValid(f, results[..n], k);
    }
  }

  lemma {:induction false} AddedAdds(f: FusedMap, results: seq<Hit>, k: real, id: ChunkId)
    requires Valid(f) && k >= 0.0
    ensures Adds(f, Added(f, results, k), results, k, id)
  {
    if results != [] {
      var n := |results| - 1;
      AddedAdds(f, results[..n], k, id);
      FirstRiskGrows(results, id, n, FirstRank(results[..n], id));
      MentionsLast(results, id);
    }
  }

  /** The chunk's contents are those of its first listing. */
  lemma {:induction false} AddedKeepsPayloads(f: FusedMap, results: seq<Hit>, k: real, id: ChunkId)
    requires Valid(f) && k >= 0.0
    ensures var g := Added(f, results, k);
      && (id in f.byId ==> id in g.byId && g.byId[id].hit.payload == f.byId[id].hit.payload)
      && (id !in f.byId && Mentions(results, id) ==>
            id in g.byId && g.byId[id].hit.payload == results[FirstRank(results, id) - 1].payload)
  {
    if results != [] {
      var n := |results| - 1;
      AddedKeepsPayloads(f, results[..n], k, id);
      AddedAdds(f, results[..n], k, id);
      MentionsLast(results, id);
    }
  }

  class HitMap {
    var order: seq<ChunkId>
    var byId: map<ChunkId, Fused>

    function Value(): FusedMap
      reads this
    {
      FusedMap(order, byId)
    }

    constructor ()
      ensures Value() == EMPTY
    {
      order, byId := [], map[];
    }

    /** `addRankedResults`: one pass over a ranked list, skipping chunks it has listed before. */
    method AddRankedResults(results: seq<Hit>, k: real)
      requires k >= 0.0
      modifies this
      ensures Value() == old(Added(Value(), results, k))
    {
      var seen: set<ChunkId> := {};
      for index := 0 to |results|
        invariant Value() == Added(old(Value()), results[..index], k)
        invariant forall id :: id in seen <==> Mentions(results[..index], id)
      {
        var hit := results[index];
        assert results[..index + 1][..index] == results[..index];
        forall id ensures Mentions(results[..index + 1], id) <==> Mentions(results[..index], id) || hit.id == id {
          MentionsLast(results[..index + 1], id);
        }
        if hit.id in seen {
          continue;
        }
        seen := seen + {hit.id};
        var c := 1.0 / (k + (index + 1) as real);
        if hit.id in byId {
          var existing := byId[hit.id];
          byId := byId[hit.id := Fused(existing.hit.(risk := existing.hit.risk || hit.risk), existing.score + c)];
          continue;
        }
        order := order + [hit.id];
        byId := byId[hit.id := Fused(hit, c)];
      }
      assert results[..|results|] == results;
    }
  }

  // ---- The fused result ----

  datatype Options = Options(k: Number, topK: Number, penalty: Number)

  function NonNegative(value: Number, fallback: real): (r: real)
    requires fallback >= 0.0
    ensures r >= 0.0
  {
    if value.Finite? && value.value >= 0.0 then value.value else fallback
  }

  function PositiveInteger(value: Number, fallback: nat): nat {
    if value.Finite? && value.value > 0.0 then value.value.Floor else fallback
  }

  function RankConstant(o: Options): (k: real)
    ensures k >= 0.0
  {
    NonNegative(o.k, 60.0)
  }

  function TopK(o: Options): nat { PositiveInteger(o.topK, 8) }

  function Penalty(o: Options): real { NonNegative(o.penalty, 0.3) }

  /** Both lists added to an empty map. */
  function Both(vector: seq<Hit>, keyword: seq<Hit>, k: real): FusedMap
    requires k >= 0.0
  {
    Added(Added(EMPTY, vector, k), keyword, k)
  }

  function Weighed(score: real, risk: bool, penalty: real): real { if risk then score * penalty else score }

  function Penalised(e: Fused, penalty: real): Fused { e.(score := Weighed(e.score, e.hit.risk, penalty)) }

  function Entries(f: FusedMap, penalty: real): seq<Fused>
    requires Valid(f)
  {
    seq(|f.order|, i requires 0 <= i < |f.order| => Penalised(f.byId[f.order[i]], penalty))
  }

  predicate AllRisky(es: seq<Fused>) { forall i | 0 <= i < |es| :: es[i].hit.risk }

  predicate Higher(a: Fused, b: Fused) { a.score >= b.score }

  function Top(es: seq<Fused>, n: nat): seq<Fused> {
    if AllRisky(es) then []
    else
      var sorted := Sorting.SortBy(es, Higher);
      if |sorted| <= n then sorted else sorted[..n]
  }

  lemma BothIsValid(vector: seq<Hit>, keyword: seq<Hit>, k: real)
    requires k >= 0.0
    ensures Valid(Both(vector, keyword, k))
  {
    AddedIsValid(EMPTY, vector, k);
    AddedIsValid(Added(EMPTY, vector, k), keyword, k);
  }

  // ---- The theorems ----

  /**
    After both passes a chunk's score is the sum of the reciprocals of its first ranks, and it is
    risky if a first listing is.
   */
  lemma ScoresAreReciprocalSums(vector: seq<Hit>, keyword: seq<Hit>, k: real, id: ChunkId)
    requires k >= 0.0
    ensures var f := Both(vector, keyword, k);
      && (id in f.byId <==> Mentions(vector, id) || Mentions(keyword, id))
      && ScoreIn(f, id) == Reciprocal(k, FirstRank(vector, id)) + Reciprocal(k, FirstRank(keyword, id))
      && (RiskyIn(f, id) <==> FirstRisky(vector, id) || FirstRisky(keyword, id))
  {
    AddedIsValid(EMPTY, vector, k);
    AddedAdds(EMPTY, vector, k, id);
    AddedAdds(Added(EMPTY, vector, k), keyword, k, id);
  }

  /** Swapping the lists changes no score and no risk flag. */
  lemma SwappingChangesNothing(vector: seq<Hit>, keyword: seq<Hit>, k: real, id: ChunkId)
    requires k >= 0.0
    ensures var f, g := Both(vector, keyword, k), Both(keyword, vector, k);
      (id in f.byId <==> id in g.byId) && ScoreIn(f, id) == ScoreIn(g, id) && (RiskyIn(f, id) <==> RiskyIn(g, id))
  {
    ScoresAreReciprocalSums(vector, keyword, k, id);
    ScoresAreReciprocalSums(keyword, vector, k, id);
  }

  /** Rank r' is no worse than r: listed no later, or listed at all. */
  predicate NoWorse(r': nat, r: nat) { r == 0 || 0 < r' <= r }

  lemma ReciprocalIsAntitone(k: real, r': nat, r: nat)
    requires k >= 0.0 && NoWorse(r', r)
    ensures Reciprocal(k, r') >= Reciprocal(k, r)
  {
    if r > 0 {
      var a, b := k + r' as real, k + r as real;
      assert 0.0 < a <= b;
      assert 1.0 / a - 1.0 / b == (b - a) / (a * b);
    }
  }

  /** Improving a chunk's first ranks never lowers its score. */
  lemma BetterRanksScoreNoLower(
    vector: seq<Hit>, keyword: seq<Hit>, vector': seq<Hit>, keyword': seq<Hit>, k: real, id: ChunkId)
    requires k >= 0.0
    requires NoWorse(FirstRank(vector', id), FirstRank(vector, id))
    requires NoWorse(FirstRank(keyword', id), FirstRank(keyword, id))
    ensures ScoreIn(Both(vector', keyword', k), id) >= ScoreIn(Both(vector, keyword, k), id)
  {
    ScoresAreReciprocalSums(vector, keyword, k, id);
    ScoresAreReciprocalSums(vector', keyword', k, id);
    ReciprocalIsAntitone(k, FirstRank(vector', id), FirstRank(vector, id));
    ReciprocalIsAntitone(k, FirstRank(keyword', id), FirstRank(keyword, id));
  }

  predicate DistinctIds(es: seq<Fused>) { forall i, j | 0 <= i < j < |es| :: es[i].hit.id != es[j].hit.id }

  lemma EntriesAreDistinct(f: FusedMap, penalty: real)
    requires Valid(f)
    ensures DistinctIds(Entries(f, penalty))
  {
    var es := Entries(f, penalty);
    forall i | 0 <= i < |es| ensures es[i].hit.id == f.order[i] {
      assert f.order[i] in f.order;
    }
  }

  /** The output is a true top-K: sorted, and no entry left out scores higher than one let in. */
  lemma TopIsTop(es: seq<Fused>, n: nat) returns (rest: seq<Fused>)
    requires !AllRisky(es)
    ensures Sorting.Sorted(Top(es, n), Higher) && |Top(es, n)| == if |es| <= n then |es| else n
    ensures multiset(Top(es, n)) + multiset(rest) == multiset(es)
    ensures forall e, t | e in rest && t in Top(es, n) :: Higher(t, e)
  {
    var sorted := Sorting.SortBy(es, Higher);
    Sorting.SortIsSorted(es, Higher);
    Sorting.SameElements(sorted, es);
    if |sorted| > n {
      rest := sorted[n..];
      CutIsInOrder(sorted, n);
    } else {
      rest := [];
    }
  }

  lemma CutIsInOrder(sorted: seq<Fused>, n: nat)
    requires Sorting.Sorted(sorted, Higher) && n <= |sorted|
    ensures Sorting.Sorted(sorted[..n], Higher) && multiset(sorted[..n]) + multiset(sorted[n..]) == multiset(sorted)
    ensures forall e, t | e in sorted[n..] && t in sorted[..n] :: Higher(t, e)
  {
    assert sorted == sorted[..n] + sorted[n..];
    forall e, t | e in sorted[n..] && t in sorted[..n] ensures Higher(t, e) {
      var i :| 0 <= i < n && sorted[..n][i] == t;
      var j :| 0 <= j < |sorted| - n && sorted[n..][j] == e;
      assert Higher(sorted[i], sorted[n + j]);
    }
  }

  /** No chunk appears twice in the output. */
  lemma TopIsDistinct(es: seq<Fused>, n: nat)
    requires DistinctIds(es)
    ensures DistinctIds(Top(es, n))
  {
    var sorted := Sorting.SortBy(es, Higher);
    Sorting.SameElements(sorted, es);
    DistinctByCount(es);
    CountsAreDistinct(sorted, multiset(es));
  }

  predicate OncePerId(m: multiset<Fused>) {
    (forall e | e in m :: m[e] == 1) && (forall e, d | e in m && d in m && e.hit.id == d.hit.id :: e == d)
  }

  lemma {:induction false} DistinctByCount(es: seq<Fused>)
    requires DistinctIds(es)
    ensures OncePerId(multiset(es))
  {
    if es != [] {
      var front, last := es[..|es| - 1], es[|es| - 1];
      assert es == front + [last];
      DistinctByCount(front);
      forall e: Fused | e in multiset(front) ensures e.hit.id != last.hit.id {
        var i :| 0 <= i < |front| && front[i] == e;
        assert es[i] == e;
      }
    }
  }

  lemma CountsAreDistinct(es: seq<Fused>, m: multiset<Fused>)
    requires multiset(es) == m && OncePerId(m)
    ensures DistinctIds(es)
  {
    forall i, j | 0 <= i < j < |es| ensures es[i].hit.id != es[j].hit.id {
      var a, b, c := es[..i], es[i + 1..j], es[j + 1..];
      assert es == a + [es[i]] + b + [es[j]] + c;
      assert es[i] in m && es[j] in m;
      assert m[es[i]] >= if es[i] == es[j] then 2 else 1;
    }
  }

  // ---- The result, read off the lists ----

  predicate Listed(vector: seq<Hit>, keyword: seq<Hit>, id: ChunkId) { Mentions(vector, id) || Mentions(keyword, id) }

  predicate Risky(vector: seq<Hit>, keyword: seq<Hit>, id: ChunkId) {
    FirstRisky(vector, id) || FirstRisky(keyword, id)
  }

  function ReciprocalSum(vector: seq<Hit>, keyword: seq<Hit>, k: real, id: ChunkId): real
    requires k >= 0.0
  {
    Reciprocal(k, FirstRank(vector, id)) + Reciprocal(k, FirstRank(keyword, id))
  }

  /** The sum of the reciprocals of a chunk's first ranks, times the penalty when it is risky. */
  function FusedScore(vector: seq<Hit>, keyword: seq<Hit>, o: Options, id: ChunkId): real {
    Weighed(ReciprocalSum(vector, keyword, RankConstant(o), id), Risky(vector, keyword, id), Penalty(o))
  }

  /** An entry is what the lists say of its chunk. */
  predicate IsEntry(vector: seq<Hit>, keyword: seq<Hit>, o: Options, e: Fused) {
    && Listed(vector, keyword, e.hit.id)
    && e.score == FusedScore(vector, keyword, o, e.hit.id)
    && (e.hit.risk <==> Risky(vector, keyword, e.hit.id))
  }

  predicate Has(es: seq<Fused>, id: ChunkId) { exists i | 0 <= i < |es| :: es[i].hit.id == id }

  function Fusion(vector: seq<Hit>, keyword: seq<Hit>, o: Options): (es: seq<Fused>) {
    BothIsValid(vector, keyword, RankConstant(o));
    Entries(Both(vector, keyword, RankConstant(o)), Penalty(o))
  }

  lemma EntryAt(vector: seq<Hit>, keyword: seq<Hit>, o: Options, i: nat)
    requires i < |Fusion(vector, keyword, o)|
    ensures IsEntry(vector, keyword, o, Fusion(vector, keyword, o)[i])
  {
    var k := RankConstant(o);
    var f := Both(vector, keyword, k);
    BothIsValid(vector, keyword, k);
    assert f.order[i] in f.order;
    ScoresAreReciprocalSums(vector, keyword, k, f.order[i]);
    PenalisedIsEntry(vector, keyword, o, f, f.order[i]);
  }

  lemma PenalisedIsEntry(vector: seq<Hit>, keyword: seq<Hit>, o: Options, f: FusedMap, id: ChunkId)
    requires Valid(f) && id in f.byId && Listed(vector, keyword, id)
    requires RiskyIn(f, id) <==> Risky(vector, keyword, id)
    requires ScoreIn(f, id) == ReciprocalSum(vector, keyword, RankConstant(o), id)
    ensures IsEntry(vector, keyword, o, Penalised(f.byId[id], Penalty(o)))
  {
  }

  lemma ListedHasEntry(vector: seq<Hit>, keyword: seq<Hit>, o: Options, id: ChunkId)
    requires Listed(vector, keyword, id)
    ensures Has(Fusion(vector, keyword, o), id)
  {
    var k := RankConstant(o);
    var f := Both(vector, keyword, k);
    BothIsValid(vector, keyword, k);
    ScoresAreReciprocalSums(vector, keyword, k, id);
    var i :| 0 <= i < |f.order| && f.order[i] == id;
    assert Fusion(vector, keyword, o)[i].hit.id == id;
  }

  lemma FusionIsDistinct(vector: seq<Hit>, keyword: seq<Hit>, o: Options)
    ensures DistinctIds(Fusion(vector, keyword, o))
  {
    BothIsValid(vector, keyword, RankConstant(o));
    EntriesAreDistinct(Both(vector, keyword, RankConstant(o)), Penalty(o));
  }

  lemma InTopIsEntry(es: seq<Fused>, n: nat, e: Fused)
    requires e in Top(es, n)
    ensures e in es
  {
    Sorting.SameElements(Sorting.SortBy(es, Higher), es);
  }

  /** Every chunk in the result is listed, and scores what the lists say. */
  lemma ResultsAreEntries(vector: seq<Hit>, keyword: seq<Hit>, o: Options, e: Fused)
    requires e in Top(Fusion(vector, keyword, o), TopK(o))
    ensures IsEntry(vector, keyword, o, e)
  {
    var es := Fusion(vector, keyword, o);
    InTopIsEntry(es, TopK(o), e);
    var i :| 0 <= i < |es| && es[i] == e;
    EntryAt(vector, keyword, o, i);
  }

  /**
    A listed chunk that is left out scores no higher than any that is let in, and only where the
    number wanted is reached.
   */
  lemma LeftOutScoresNoHigher(vector: seq<Hit>, keyword: seq<Hit>, o: Options, es: seq<Fused>, id: ChunkId)
    requires es == Fusion(vector, keyword, o) && !AllRisky(es)
    requires Listed(vector, keyword, id) && !Has(Top(es, TopK(o)), id)
    ensures |Top(es, TopK(o))| == TopK(o)
    ensures forall t | t in Top(es, TopK(o)) :: t.score >= FusedScore(vector, keyword, o, id)
  {
    var top := Top(es, TopK(o));
    var rest := TopIsTop(es, TopK(o));
    ListedHasEntry(vector, keyword, o, id);
    var i :| 0 <= i < |es| && es[i].hit.id == id;
    EntryAt(vector, keyword, o, i);
    NotInTopIsInRest(es, top, rest, es[i]);
  }

  lemma NotInTopIsInRest(es: seq<Fused>, top: seq<Fused>, rest: seq<Fused>, e: Fused)
    requires multiset(top) + multiset(rest) == multiset(es) && e in es && !Has(top, e.hit.id)
    ensures e in rest && |es| == |top| + |rest| && |rest| > 0
  {
    assert e in multiset(es);
    assert |multiset(top) + multiset(rest)| == |top| + |rest|;
    InMeansHas(top, e);
  }

  lemma InMeansHas(es: seq<Fused>, e: Fused)
    ensures e in es ==> Has(es, e.hit.id)
  {
  }

  /** Nothing is returned exactly when every listed chunk is risky, or none is wanted. */
  lemma NothingReturnedIff(vector: seq<Hit>, keyword: seq<Hit>, o: Options)
    ensures Top(Fusion(vector, keyword, o), TopK(o)) == [] <==>
      TopK(o) == 0 || forall id | Listed(vector, keyword, id) :: Risky(vector, keyword, id)
  {
    var es := Fusion(vector, keyword, o);
    Sorting.SameElements(Sorting.SortBy(es, Higher), es);
    if AllRisky(es) {
      forall id | Listed(vector, keyword, id) ensures Risky(vector, keyword, id) {
        ListedHasEntry(vector, keyword, o, id);
        var i :| 0 <= i < |es| && es[i].hit.id == id;
        EntryAt(vector, keyword, o, i);
      }
    } else {
      var i :| 0 <= i < |es| && !es[i].hit.risk;
      EntryAt(vector, keyword, o, i);
    }
  }

  /**
    Distinct chunks, highest score first, each scored by the penalised sum of its reciprocals;
    nothing left out scores higher, and nothing comes back when all are risky.
   */
  ghost predicate Fuses(vector: seq<Hit>, keyword: seq<Hit>, o: Options, result: seq<Fused>) {
    && DistinctIds(result) && Sorting.Sorted(result, Higher) && |result| <= TopK(o)
    && (forall e | e in result :: IsEntry(vector, keyword, o, e))
    && (result == [] <==> TopK(o) == 0 || forall id | Listed(vector, keyword, id) :: Risky(vector, keyword, id))
    && (forall id, e | Listed(vector, keyword, id) && !Has(result, id) && e in result ::
          |result| == TopK(o) && e.score >= FusedScore(vector, keyword, o, id))
  }

  lemma TopFuses(vector: seq<Hit>, keyword: seq<Hit>, o: Options, result: seq<Fused>)
    requires result == Top(Fusion(vector, keyword, o), TopK(o))
    ensures Fuses(vector, keyword, o, result)
  {
    var es := Fusion(vector, keyword, o);
    FusionIsDistinct(vector, keyword, o);
    TopIsDistinct(es, TopK(o));
    NothingReturnedIff(vector, keyword, o);
    forall e | e in result ensures IsEntry(vector, keyword, o, e) { ResultsAreEntries(vector, keyword, o, e); }
    if !AllRisky(es) {
      var rest := TopIsTop(es, TopK(o));
      forall id, e | Listed(vector, keyword, id) && !Has(result, id) && e in result
        ensures |result| == TopK(o) && e.score >= FusedScore(vector, keyword, o, id)
      {
        LeftOutScoresNoHigher(vector, keyword, o, es, id);
      }
    }
  }

  /** The score, written out: the reciprocals of the first ranks added up, penalised if a first listing is risky. */
  predicate HasScore(vector: seq<Hit>, keyword: seq<Hit>, k: real, penalty: real, e: Fused)
    requires k >= 0.0
  {
    var v, w := FirstRank(vector, e.hit.id), FirstRank(keyword, e.hit.id);
    var sum := Reciprocal(k, v) + Reciprocal(k, w);
    var risky := (v > 0 && vector[v - 1].risk) || (w > 0 && keyword[w - 1].risk);
    && (v > 0 || w > 0) && e.hit.risk == risky
    && e.score == if risky then sum * penalty else sum
  }

  /** Rank r counts 1 / (k + r), and no rank nothing. */
  lemma ReciprocalIs(k: real, r: nat)
    requires k >= 0.0
    ensures if r == 0 then Reciprocal(k, r) == 0.0 else Reciprocal(k, r) * (k + r as real) == 1.0
  {
  }

  lemma EntryHasScore(vector: seq<Hit>, keyword: seq<Hit>, o: Options, e: Fused)
    requires IsEntry(vector, keyword, o, e)
    ensures HasScore(vector, keyword, RankConstant(o), Penalty(o), e)
  {
  }

  /** The options that apply where one is missing, no number, or out of range. */
  lemma DefaultsAre(o: Options)
    ensures RankConstant(o) == (if o.k.Finite? && o.k.value >= 0.0 then o.k.value else 60.0)
    ensures TopK(o) == if o.topK.Finite? && o.topK.value > 0.0 then o.topK.value.Floor else 8
    ensures Penalty(o) == (if o.penalty.Finite? && o.penalty.value >= 0.0 then o.penalty.value else 0.3)
  {
  }

  /** What the lists say of a chunk's contents: the vector list's first listing decides, else the keyword list's. */
  predicate HasPayload(vector: seq<Hit>, keyword: seq<Hit>, hit: Hit) {
    var v, w := FirstRank(vector, hit.id), FirstRank(keyword, hit.id);
    if v > 0 then hit.payload == vector[v - 1].payload else w > 0 ==> hit.payload == keyword[w - 1].payload
  }

  lemma BothKeepPayloads(vector: seq<Hit>, keyword: seq<Hit>, k: real, id: ChunkId)
    requires k >= 0.0 && id in Both(vector, keyword, k).byId
    ensures Both(vector, keyword, k).byId[id].hit.id == id
    ensures HasPayload(vector, keyword, Both(vector, keyword, k).byId[id].hit)
  {
    var f := Added(EMPTY, vector, k);
    AddedIsValid(EMPTY, vector, k);
    BothIsValid(vector, keyword, k);
    AddedKeepsPayloads(EMPTY, vector, k, id);
    AddedAdds(EMPTY, vector, k, id);
    AddedKeepsPayloads(f, keyword, k, id);
  }

  lemma FusionHasPayloads(vector: seq<Hit>, keyword: seq<Hit>, o: Options, e: Fused)
    requires e in Top(Fusion(vector, keyword, o), TopK(o))
    ensures HasPayload(vector, keyword, e.hit)
  {
    var es, k := Fusion(vector, keyword, o), RankConstant(o);
    InTopIsEntry(es, TopK(o), e);
    var i :| 0 <= i < |es| && es[i] == e;
    BothIsValid(vector, keyword, k);
    assert Both(vector, keyword, k).order[i] in Both(vector, keyword, k).order;
    BothKeepPayloads(vector, keyword, k, e.hit.id);
  }

  /** `rrfFuse` */
  method RrfFuse(vector: seq<Hit>, keyword: seq<Hit>, o: Options) returns (result: seq<Fused>)
    ensures result == Top(Fusion(vector, keyword, o), TopK(o))
    ensures Fuses(vector, keyword, o, result)
    ensures forall i, j | 0 <= i < j < |result| :: result[i].score >= result[j].score
    ensures forall e | e in result :: HasScore(vector, keyword, RankConstant(o), Penalty(o), e)
    ensures forall e | e in result :: HasPayload(vector, keyword, e.hit)
  {
    var k := RankConstant(o);
    var fused := new HitMap();
    fused.AddRankedResults(vector, k);
    fused.AddRankedResults(keyword, k);
    BothIsValid(vector, keyword, k);
    result := Top(Entries(fused.Value(), Penalty(o)), TopK(o));
    TopFuses(vector, keyword, o, result);
    forall i, j | 0 <= i < j < |result| ensures result[i].score >= result[j].score {
      assert Higher(result[i], result[j]);
    }
    forall e | e in result ensures HasScore(vector, keyword, k, Penalty(o), e) {
      EntryHasScore(vector, keyword, o, e);
    }
    forall e | e in result ensures HasPayload(vector, keyword, e.hit) { FusionHasPayloads(vector, keyword, o, e); }
  }
}
