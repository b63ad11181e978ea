/** Packing retrieval results into token budgets (packages/rag-core/src/context-packer.ts). */
module ContextPacker {
  import opened Numbers
  import opened Text
  import Sorting

  type Counter = Text -> Number

  /** A fused result: its text, its score, and whether it is a page chunk, a graph result or a community. */
  datatype Kind = Wiki | Graph | Community

  datatype Result = Result(kind: Kind, text: Text, score: real)

  datatype Item = Item(result: Result, tokens: nat)

  const SEPARATOR: Text := [10, 10]
  const SEPARATOR_TOKENS: nat := 2

  function Ceiling(x: real): int { -((-x).Floor) }

  function CountTokens(text: Text, counter: Counter): nat {
    var n := counter(text);
    if n.NotFinite? || n.value <= 0.0 then 0 else Ceiling(n.value)
  }

  /** The counter the repository uses: a quarter of the code units, rounded up. */
  function ApproximateTokenCount(text: Text): Number { Finite(CeilQuarter(|text|) as real) }

  lemma ApproximateCount(text: Text)
    ensures CountTokens(text, ApproximateTokenCount) == CeilQuarter(|text|)
  {
    var n: int := CeilQuarter(|text|);
    assert (-(n as real)).Floor == -n;
  }

  function NormalizeTokenBudget(value: Number): nat {
    if value.NotFinite? || value.value <= 0.0 then 0 else value.value.Floor
  }

  // ---- The sorted items of one kind ----

  function Select(results: seq<Result>, kind: Kind, counter: Counter): seq<Item> {
    if results == [] then []
    else
      var r := results[|results| - 1];
      Select(results[..|results| - 1], kind, counter)
      + if r.kind == kind then [Item(r, CountTokens(r.text, counter))] else []
  }

  predicate Higher(a: Item, b: Item) { a.result.score >= b.result.score }

  function Items(results: seq<Result>, kind: Kind, counter: Counter): seq<Item> {
    Sorting.SortBy(Select(results, kind, counter), Higher)
  }

  // ---- Packing ----

  /** The positions taken so far, the items there, and the tokens they use. */
  datatype Pack = Pack(taken: seq<nat>, included: seq<Item>, tokens: nat)

  const EMPTY := Pack([], [], 0)

  function Cost(item: Item, pack: Pack): nat { item.tokens + if pack.included != [] then SEPARATOR_TOKENS else 0 }

  predicate Fits(item: Item, pack: Pack, budget: nat) { pack.tokens + Cost(item, pack) <= budget }

  function Offer(pack: Pack, item: Item, position: nat, budget: nat): Pack {
    if Fits(item, pack, budget)
    then Pack(pack.taken + [position], pack.included + [item], pack.tokens + Cost(item, pack))
    else pack
  }

  function PackUpTo(items: seq<Item>, budget: nat): Pack {
    if items == [] then EMPTY
    else
      var n := |items| - 1;
      Offer(PackUpTo(items[..n], budget), items[n], n, budget)
  }

  /** Increasing positions, and the items there. */
  predicate Subsequence(items: seq<Item>, pack: Pack) {
    && |pack.taken| == |pack.included|
    && (forall i | 0 <= i < |pack.taken| :: pack.taken[i] < |items| && items[pack.taken[i]] == pack.included[i])
    && (forall i, j | 0 <= i < j < |pack.taken| :: pack.taken[i] < pack.taken[j])
  }

  /** A pack is a subsequence of the items, within its budget. */
  lemma {:induction false} PackIsSubsequence(items: seq<Item>, budget: nat)
    ensures Subsequence(items, PackUpTo(items, budget)) && PackUpTo(items, budget).tokens <= budget
    ensures |PackUpTo(items, budget).included| <= |items|
  {
    if items != [] {
      PackIsSubsequence(items[..|items| - 1], budget);
      OfferKeepsSubsequence(items, PackUpTo(items[..|items| - 1], budget), budget);
    }
  }

  lemma OfferKeepsSubsequence(items: seq<Item>, pack: Pack, budget: nat)
    requires items != [] && Subsequence(items[..|items| - 1], pack)
    ensures Subsequence(items, Offer(pack, items[|items| - 1], |items| - 1, budget))
  {
    var front := items[..|items| - 1];
    assert forall i | 0 <= i < |pack.taken| :: items[pack.taken[i]] == front[pack.taken[i]];
  }

  function Budget(category: Number, remaining: int): nat {
    var b := NormalizeTokenBudget(category);
    if remaining < 0 then 0 else if b < remaining then b else remaining
  }

  method PackItems(items: seq<Item>, category: Number, remaining: int)
    returns (included: seq<Item>, tokens: nat, truncated: nat)
    ensures var pack := PackUpTo(items, Budget(category, remaining)); included == pack.included && tokens == pack.tokens
    ensures tokens <= Budget(category, remaining) && truncated == |items| - |included|
  {
    var budget := Budget(category, remaining);
    included := [];
    tokens := 0;
    for n := 0 to |items|
      invariant included == PackUpTo(items[..n], budget).included && tokens == PackUpTo(items[..n], budget).tokens
    {
      assert items[..n + 1][..n] == items[..n];
      var cost := items[n].tokens + if |included| > 0 then SEPARATOR_TOKENS else 0;
      if tokens + cost > budget {
        continue;
      }
      included := included + [items[n]];
      tokens := tokens + cost;
    }
    assert items[..|items|] == items;
    PackIsSubsequence(items, budget);
    truncated := |items| - |included|;
  }

  /** No skipped item could be appended to the finished pack. */
  lemma {:induction false} PackIsMaximal(items: seq<Item>, budget: nat, j: nat)
    requires j < |items| && j !in PackUpTo(items, budget).taken
    ensures var pack := PackUpTo(items, budget);
      pack.tokens + items[j].tokens + (if pack.included == [] then 0 else 2) > budget
  {
    var n := |items| - 1;
    if j < n {
      PackIsMaximal(items[..n], budget, j);
    }
  }

  /** An item is taken exactly when, with the separator it may need, it fits into what is left of the budget. */
  lemma {:induction false} TakenIff(items: seq<Item>, budget: nat, n: nat)
    requires n < |items|
    ensures var before := PackUpTo(items[..n], budget);
      n in PackUpTo(items, budget).taken <==>
        before.tokens + items[n].tokens + (if before.included == [] then 0 else 2) <= budget
  {
    var last := |items| - 1;
    PackIsSubsequence(items[..last], budget);
    if n < last {
      TakenIff(items[..last], budget, n);
      assert items[..last][..n] == items[..n];
    }
  }

  function Tokens(items: seq<Item>): nat {
    if items == [] then 0 else Tokens(items[..|items| - 1]) + items[|items| - 1].tokens
  }

  /** What packing charges: the tokens of the items and two for each separator between them. */
  lemma {:induction false} ChargedIs(items: seq<Item>, budget: nat)
    ensures var pack := PackUpTo(items, budget);
      pack.tokens == Tokens(pack.included) + (if pack.included == [] then 0 else 2 * (|pack.included| - 1))
  {
    if items != [] { ChargedIs(items[..|items| - 1], budget); }
  }

  /** Budgets are rounded down and counts up; what is no positive number is zero. A pack gets the lesser budget. */
  lemma BudgetsAndCounts(text: Text, counter: Counter, category: Number, remaining: int)
    ensures var n, r := counter(text), CountTokens(text, counter);
      if n.Finite? && n.value > 0.0 then (r - 1) as real < n.value <= r as real else r == 0
    ensures var r := NormalizeTokenBudget(category);
      if category.Finite? && category.value > 0.0 then r as real <= category.value < (r + 1) as real else r == 0
    ensures var b, c := Budget(category, remaining), NormalizeTokenBudget(category);
      b <= c && (b <= remaining || b == 0) && (b == c || b == remaining || (remaining < 0 && b == 0))
  {
  }

  // ---- The joined text ----

  function JoinContext(items: seq<Item>): Text {
    if items == [] then []
    else if |items| == 1 then items[0].result.text
    else JoinContext(items[..|items| - 1]) + SEPARATOR + items[|items| - 1].result.text
  }

  /** The texts with an empty line between each and the next. */
  lemma JoinAppends(items: seq<Item>, item: Item)
    ensures JoinContext([]) == [] && JoinContext([item]) == item.result.text
    ensures items != [] ==> JoinContext(items + [item]) == JoinContext(items) + [10, 10] + item.result.text
  {
    assert (items + [item])[..|items|] == items;
  }

  /** Token counts as the repository's counter gives them. */
  predicate Counted(items: seq<Item>) {
    forall i | 0 <= i < |items| :: items[i].tokens == CeilQuarter(|items[i].result.text|)
  }

  /** The joined text, separators included, counts no more tokens than packing it was charged. */
  lemma {:induction false} JoinedTextFits(items: seq<Item>, budget: nat)
    requires Counted(items)
    ensures CeilQuarter(|JoinContext(PackUpTo(items, budget).included)|) <= PackUpTo(items, budget).tokens <= budget
  {
    if items != [] { JoinedTextFits(items[..|items| - 1], budget); }
  }

  lemma ItemsAreCounted(results: seq<Result>, kind: Kind)
    ensures Counted(Items(results, kind, ApproximateTokenCount))
  {
    var selected, items := Select(results, kind, ApproximateTokenCount), Items(results, kind, ApproximateTokenCount);
    SelectedAreCounted(results, kind);
    Sorting.SameElements(items, selected);
    forall i | 0 <= i < |items| ensures items[i].tokens == CeilQuarter(|items[i].result.text|) {
      assert items[i] in selected;
    }
  }

  lemma {:induction false} SelectedAreCounted(results: seq<Result>, kind: Kind)
    ensures Counted(Select(results, kind, ApproximateTokenCount))
  {
    if results != [] {
      SelectedAreCounted(results[..|results| - 1], kind);
      ApproximateCount(results[|results| - 1].text);
    }
  }

  /** The items of a kind are the results of that kind, highest score first. */
  lemma ItemsAreSorted(results: seq<Result>, kind: Kind, counter: Counter)
    ensures var items := Items(results, kind, counter);
      forall i, j | 0 <= i < j < |items| :: items[i].result.score >= items[j].result.score
    ensures forall item ::
      multiset(Items(results, kind, counter))[item] ==
        if item.result.kind == kind && item.tokens == CountTokens(item.result.text, counter)
        then multiset(results)[item.result] else 0
  {
    Sorting.SortIsSorted(Select(results, kind, counter), Higher);
    var items := Items(results, kind, counter);
    forall i, j | 0 <= i < j < |items| ensures items[i].result.score >= items[j].result.score {
      assert Higher(items[i], items[j]);
    }
    forall item
      ensures multiset(items)[item] ==
        if item.result.kind == kind && item.tokens == CountTokens(item.result.text, counter)
        then multiset(results)[item.result] else 0
    {
      SelectCounts(results, kind, counter, item);
    }
  }

  lemma {:induction false} SelectCounts(results: seq<Result>, kind: Kind, counter: Counter, item: Item)
    ensures multiset(Select(results, kind, counter))[item] ==
      if item.result.kind == kind && item.tokens == CountTokens(item.result.text, counter)
      then multiset(results)[item.result] else 0
  {
    if results != [] {
      SelectCounts(results[..|results| - 1], kind, counter, item);
      assert results == results[..|results| - 1] + [results[|results| - 1]];
    }
  }

  // ---- The three packs ----

  datatype Budgets = Budgets(wiki: Number, graph: Number, community: Number, total: Number)

  datatype Packs = Packs(wiki: Pack, graph: Pack, community: Pack)

  /** The packs in the order they are filled, each from what the ones before left. */
  function PackAll(wiki: seq<Item>, graph: seq<Item>, community: seq<Item>, b: Budgets): Packs {
    var total := NormalizeTokenBudget(b.total);
    var w := PackUpTo(wiki, Budget(b.wiki, total));
    var g := PackUpTo(graph, Budget(b.graph, total - w.tokens));
    var c := PackUpTo(community, Budget(b.community, total - w.tokens - g.tokens));
    Packs(w, g, c)
  }

  /** Each category is packed by its own rules into what the ones before it left of the whole. */
  lemma PacksAre(wiki: seq<Item>, graph: seq<Item>, community: seq<Item>, b: Budgets)
    ensures var p, whole := PackAll(wiki, graph, community, b), NormalizeTokenBudget(b.total);
      && p.wiki == PackUpTo(wiki, Budget(b.wiki, whole))
      && p.graph == PackUpTo(graph, Budget(b.graph, whole - p.wiki.tokens))
      && p.community == PackUpTo(community, Budget(b.community, whole - p.wiki.tokens - p.graph.tokens))
      && Total(p) == p.wiki.tokens + p.graph.tokens + p.community.tokens
  {
  }

  function Total(p: Packs): nat { p.wiki.tokens + p.graph.tokens + p.community.tokens }

  method PackContext(results: seq<Result>, b: Budgets, counter: Counter)
    returns (wiki: Text, graph: seq<Item>, community: Text, total: nat, truncated: nat)
    ensures var w, g := Items(results, Wiki, counter), Items(results, Graph, counter);
      var c := Items(results, Community, counter);
      var p := PackAll(w, g, c, b);
      && wiki == JoinContext(p.wiki.included) && graph == p.graph.included
      && community == JoinContext(p.community.included)
      && total == Total(p)
      && truncated == |w| + |g| + |c|
                      - |p.wiki.included| - |p.graph.included| - |p.community.included|
    ensures total <= NormalizeTokenBudget(b.total)
    ensures counter == ApproximateTokenCount ==>
      && CountTokens(wiki, counter) <= NormalizeTokenBudget(b.wiki)
      && CountTokens(community, counter) <= NormalizeTokenBudget(b.community)
      && CountTokens(wiki, counter) + CountTokens(community, counter) <= total
  {
    var wikiItems, graphItems, communityItems :=
      Items(results, Wiki, counter), Items(results, Graph, counter), Items(results, Community, counter);
    var remaining: int := NormalizeTokenBudget(b.total);
    var wikiPack, wikiTokens, wikiTruncated := PackItems(wikiItems, b.wiki, remaining);
    remaining := remaining - wikiTokens;
    var graphPack, graphTokens, graphTruncated := PackItems(graphItems, b.graph, remaining);
    remaining := remaining - graphTokens;
    var communityPack, communityTokens, communityTruncated := PackItems(communityItems, b.community, remaining);
    wiki, graph, community := JoinContext(wikiPack), graphPack, JoinContext(communityPack);
    total := wikiTokens + graphTokens + communityTokens;
    truncated := wikiTruncated + graphTruncated + communityTruncated;
    TotalFits(wikiItems, graphItems, communityItems, b);
    if counter == ApproximateTokenCount {
      PackedContextsFit(results, b, PackAll(wikiItems, graphItems, communityItems, b));
    }
  }

  /** Whatever the counter, the packs together stay within the overall budget. */
  lemma TotalFits(wiki: seq<Item>, graph: seq<Item>, community: seq<Item>, b: Budgets)
    ensures Total(PackAll(wiki, graph, community, b)) <= NormalizeTokenBudget(b.total)
  {
    var total := NormalizeTokenBudget(b.total);
    var p := PackAll(wiki, graph, community, b);
    PackIsSubsequence(wiki, Budget(b.wiki, total));
    PackIsSubsequence(graph, Budget(b.graph, total - p.wiki.tokens));
    PackIsSubsequence(community, Budget(b.community, total - p.wiki.tokens - p.graph.tokens));
  }

  /** The same for the items of any results, in the repository's own token counts. */
  lemma PackedContextsFit(results: seq<Result>, b: Budgets, p: Packs)
    requires p == PackAll(Items(results, Wiki, ApproximateTokenCount), Items(results, Graph, ApproximateTokenCount),
                          Items(results, Community, ApproximateTokenCount), b)
    ensures var wiki, community := JoinContext(p.wiki.included), JoinContext(p.community.included);
      && CountTokens(wiki, ApproximateTokenCount) <= NormalizeTokenBudget(b.wiki)
      && CountTokens(community, ApproximateTokenCount) <= NormalizeTokenBudget(b.community)
      && CountTokens(wiki, ApproximateTokenCount) + CountTokens(community, ApproximateTokenCount) <= Total(p)
  {
    ItemsAreCounted(results, Wiki);
    ItemsAreCounted(results, Community);
    ApproximateCount(JoinContext(p.wiki.included));
    ApproximateCount(JoinContext(p.community.included));
    JoinedContextsFit(Items(results, Wiki, ApproximateTokenCount), Items(results, Graph, ApproximateTokenCount),
                      Items(results, Community, ApproximateTokenCount), b, p);
  }

  /**
    With the repository's counter, the joined wiki and community texts, separators included, count
    within their category budgets and together with the graph pack within the overall one.
   */
  lemma JoinedContextsFit(wiki: seq<Item>, graph: seq<Item>, community: seq<Item>, b: Budgets, p: Packs)
    requires Counted(wiki) && Counted(community) && p == PackAll(wiki, graph, community, b)
    ensures CeilQuarter(|JoinContext(p.wiki.included)|) <= NormalizeTokenBudget(b.wiki)
    ensures CeilQuarter(|JoinContext(p.community.included)|) <= NormalizeTokenBudget(b.community)
    ensures CeilQuarter(|JoinContext(p.wiki.included)|) + p.graph.tokens
      + CeilQuarter(|JoinContext(p.community.included)|) <= Total(p) <= NormalizeTokenBudget(b.total)
  {
    var total := NormalizeTokenBudget(b.total);
    TotalFits(wiki, graph, community, b);
    JoinedPackFits(wiki, b.wiki, total, p.wiki);
    JoinedPackFits(community, b.community, total - p.wiki.tokens - p.graph.tokens, p.community);
  }

  lemma JoinedPackFits(items: seq<Item>, category: Number, remaining: int, pack: Pack)
    requires Counted(items) && pack == PackUpTo(items, Budget(category, remaining))
    ensures CeilQuarter(|JoinContext(pack.included)|) <= pack.tokens <= NormalizeTokenBudget(category)
  {
    JoinedTextFits(items, Budget(category, remaining));
  }
}
