/**
  How one indexing job plans the chunks of a new snapshot, which vectors it reuses and
  which it has embedded (apps/indexer-worker/src/indexer-worker.ts).
 */
module IndexPlans {
  import opened Options
  import opened Snapshots

  type PageId = string
  type Hash = string
  type Vector = seq<real>

  const EMBEDDING_BATCH_SIZE: nat := 128

  /** The hash and the embedding as pure functions of their input. */
  datatype Oracle = Oracle(hash: string -> Hash, embed: (ModelId, string) -> Vector)

  ghost predicate InjectiveHash(o: Oracle) { forall a, b :: o.hash(a) == o.hash(b) ==> a == b }

  /** A published page with the contents chunkPage splits it into; position i has chunk_index i. */
  datatype Page = Page(id: PageId, contents: seq<string>)

  datatype Chunk = Chunk(
    id: Id, snapshot: Id, page: PageId, index: nat, content: string, hash: Hash, model: ModelId)

  datatype Embedding = Embedding(chunk: Id, model: ModelId, vector: Vector)

  /** A chunk of the active snapshot joined with its vector, if any. */
  datatype PreviousRow = PreviousRow(chunk: Chunk, vector: Option<Vector>)

  datatype Plan = Plan(chunk: Chunk, reused: Option<Vector>)

  type Position = (PageId, nat)
  type PreviousMap = map<Position, PreviousRow>

  function PositionOf(row: PreviousRow): Position { (row.chunk.page, row.chunk.index) }

  /** Later rows of the same model win their position. */
  function PreviousByPosition(rows: seq<PreviousRow>, model: ModelId): PreviousMap {
    if rows == [] then map[]
    else
      var before, row := PreviousByPosition(rows[..|rows| - 1], model), rows[|rows| - 1];
      if row.chunk.model != model then before else before[PositionOf(row) := row]
  }

  predicate IsAt(row: PreviousRow, model: ModelId, p: Position) { row.chunk.model == model && PositionOf(row) == p }

  /** Row i is the last of the model at the position. */
  predicate LastAt(rows: seq<PreviousRow>, model: ModelId, p: Position, i: nat) {
    i < |rows| && IsAt(rows[i], model, p) && forall j | i < j < |rows| :: !IsAt(rows[j], model, p)
  }

  lemma {:induction false} LastRowWins(rows: seq<PreviousRow>, model: ModelId, p: Position)
    ensures p in PreviousByPosition(rows, model) <==> exists i: nat :: LastAt(rows, model, p, i)
    ensures forall i: nat | LastAt(rows, model, p, i) :: PreviousByPosition(rows, model)[p] == rows[i]
  {
    if rows != [] {
      var n := |rows| - 1;
      LastRowWins(rows[..n], model, p);
      if IsAt(rows[n], model, p) {
        assert LastAt(rows, model, p, n);
      } else {
        forall i: nat ensures LastAt(rows, model, p, i) <==> LastAt(rows[..n], model, p, i) {
          SameLast(rows, model, p, i);
        }
      }
    }
  }

  lemma SameLast(rows: seq<PreviousRow>, model: ModelId, p: Position, i: nat)
    requires rows != [] && !IsAt(rows[|rows| - 1], model, p)
    ensures LastAt(rows, model, p, i) <==> LastAt(rows[..|rows| - 1], model, p, i)
  {
    var front := rows[..|rows| - 1];
    assert forall j | 0 <= j < |front| :: front[j] == rows[j];
  }

  /** The map holds, for each position that has a row of the model, the last such row. */
  method BuildPreviousChunkMap(rows: seq<PreviousRow>, model: ModelId) returns (previous: PreviousMap)
    ensures previous == PreviousByPosition(rows, model)
    ensures forall p :: p in previous <==> exists i: nat :: LastAt(rows, model, p, i)
    ensures forall p, i: nat | LastAt(rows, model, p, i) :: previous[p] == rows[i]
  {
    previous := map[];
    for i := 0 to |rows|
      invariant previous == PreviousByPosition(rows[..i], model)
    {
      assert rows[..i + 1][..i] == rows[..i];
      if rows[i].chunk.model != model {
        continue;
      }
      previous := previous[PositionOf(rows[i]) := rows[i]];
    }
    assert rows[..|rows|] == rows;
    forall p ensures p in previous <==> exists i: nat :: LastAt(rows, model, p, i) { LastRowWins(rows, model, p); }
    forall p, i: nat | LastAt(rows, model, p, i) ensures previous[p] == rows[i] { LastRowWins(rows, model, p); }
  }

  /** Reuse the vector at the same position when the content hash is unchanged. */
  function Reusable(hash: Hash, position: Position, previous: PreviousMap): Option<Vector> {
    if position in previous && previous[position].chunk.hash == hash then previous[position].vector else None
  }

  function PlanPage(
      o: Oracle, snapshot: Id, model: ModelId, page: Page, previous: PreviousMap, firstId: Id): (plans: seq<Plan>)
    ensures |plans| == |page.contents|
  {
    seq(|page.contents|, i requires 0 <= i < |page.contents| =>
      var hash := o.hash(page.contents[i]);
      Plan(Chunk(firstId + i, snapshot, page.id, i, page.contents[i], hash, model),
           Reusable(hash, (page.id, i), previous)))
  }

  function PlanPages(
      o: Oracle, snapshot: Id, model: ModelId, pages: seq<Page>, previous: PreviousMap, firstId: Id): (plans: seq<Plan>)
  {
    if pages == [] then []
    else
      var before := PlanPages(o, snapshot, model, pages[..|pages| - 1], previous, firstId);
      before + PlanPage(o, snapshot, model, pages[|pages| - 1], previous, firstId + |before|)
  }

  method PlanRebuiltSnapshot(
      o: Oracle, snapshot: Id, model: ModelId, pages: seq<Page>, previous: PreviousMap, firstId: Id)
    returns (plans: seq<Plan>)
    ensures plans == PlanPages(o, snapshot, model, pages, previous, firstId)
  {
    plans := [];
    for i := 0 to |pages|
      invariant plans == PlanPages(o, snapshot, model, pages[..i], previous, firstId)
    {
      assert pages[..i + 1][..i] == pages[..i];
      plans := plans + PlanPage(o, snapshot, model, pages[i], previous, firstId + |plans|);
    }
    assert pages[..|pages|] == pages;
  }

  /** The rows of other pages, copied with whatever vector they have. */
  function CopyOthers(
      snapshot: Id, model: ModelId, target: PageId, rows: seq<PreviousRow>, firstId: Id): (plans: seq<Plan>)
    ensures |plans| <= |rows|
  {
    if rows == [] then []
    else
      var before, row := CopyOthers(snapshot, model, target, rows[..|rows| - 1], firstId), rows[|rows| - 1];
      if row.chunk.page == target then before
      else before + [Plan(row.chunk.(id := firstId + |before|, snapshot := snapshot, model := model), row.vector)]
  }

  function PlanSinglePage(
      o: Oracle, snapshot: Id, model: ModelId, target: Page, rows: seq<PreviousRow>, firstId: Id): (plans: seq<Plan>)
  {
    var copied := CopyOthers(snapshot, model, target.id, rows, firstId);
    copied + PlanPage(o, snapshot, model, target, PreviousByPosition(rows, model), firstId + |copied|)
  }

  // ---- Embedding ----

  function Row(plan: Plan, model: ModelId, v: Vector): Embedding { Embedding(plan.chunk.id, model, v) }

  function ReusedRows(plans: seq<Plan>, model: ModelId): seq<Embedding> {
    if plans == [] then []
    else
      var plan := plans[|plans| - 1];
      ReusedRows(plans[..|plans| - 1], model) + if plan.reused.Some? then [Row(plan, model, plan.reused.value)] else []
  }

  function NeedVectors(plans: seq<Plan>): (r: seq<Plan>)
    ensures forall p | p in r :: p in plans && p.reused.None?
  {
    if plans == [] then []
    else
      NeedVectors(plans[..|plans| - 1]) + if plans[|plans| - 1].reused.None? then [plans[|plans| - 1]] else []
  }

  function FreshRows(o: Oracle, plans: seq<Plan>, model: ModelId): seq<Embedding> {
    seq(|plans|, i requires 0 <= i < |plans| => Row(plans[i], model, o.embed(model, plans[i].chunk.content)))
  }

  /** All rows one job inserts. */
  function EmbeddingRows(o: Oracle, plans: seq<Plan>, model: ModelId): seq<Embedding> {
    ReusedRows(plans, model) + FreshRows(o, NeedVectors(plans), model)
  }

  function Contents(plans: seq<Plan>): seq<string> {
    seq(|plans|, i requires 0 <= i < |plans| => plans[i].chunk.content)
  }

  /** The provider may fail or return too few or too many vectors; those it pairs up are right. */
  ghost predicate HonestProvider(o: Oracle, model: ModelId, provider: seq<string> -> Option<seq<Vector>>) {
    forall texts :: provider(texts).Some? && |provider(texts).value| == |texts| ==>
      forall i | 0 <= i < |texts| :: provider(texts).value[i] == o.embed(model, texts[i])
  }

  ghost predicate Answers(provider: seq<string> -> Option<seq<Vector>>, batch: seq<Plan>) {
    provider(Contents(batch)).Some? && |provider(Contents(batch)).value| == |batch|
  }

  function Min(a: nat, b: nat): nat { if a <= b then a else b }

  lemma OneMoreBatch(o: Oracle, needing: seq<Plan>, model: ModelId, start: nat, end: nat, vectors: seq<Vector>)
    requires start <= end <= |needing| && |vectors| == end - start
    requires forall i | 0 <= i < |vectors| :: vectors[i] == o.embed(model, needing[start + i].chunk.content)
    ensures FreshRows(o, needing[..end], model) == FreshRows(o, needing[..start], model)
      + seq(end - start, i requires 0 <= i < end - start => Row(needing[start + i], model, vectors[i]))
  {
  }

  /** Embeds in batches; None when the provider fails or miscounts one. */
  method EmbedBatches(
      o: Oracle, needing: seq<Plan>, model: ModelId, provider: seq<string> -> Option<seq<Vector>>)
    returns (rows: Option<seq<Embedding>>)
    requires HonestProvider(o, model, provider)
    ensures rows.Some? ==> rows.value == FreshRows(o, needing, model)
    ensures (forall batch :: |batch| <= 128 ==> Answers(provider, batch)) ==> rows.Some?
  {
    var toInsert: seq<Embedding> := [];
    var start := 0;
    while start < |needing|
      invariant 0 <= start <= |needing|
      invariant toInsert == FreshRows(o, needing[..start], model)
    {
      var end := Min(start + EMBEDDING_BATCH_SIZE, |needing|);
      var batch := needing[start..end];
      var vectors := provider(Contents(batch));
      if vectors.None? || |vectors.value| != |batch| {
        assert !Answers(provider, batch);
        return None;
      }
      forall i | 0 <= i < |batch| ensures vectors.value[i] == o.embed(model, needing[start + i].chunk.content) {
        assert Contents(batch)[i] == needing[start + i].chunk.content;
      }
      OneMoreBatch(o, needing, model, start, end, vectors.value);
      toInsert := toInsert
        + seq(end - start, i requires 0 <= i < end - start => Row(needing[start + i], model, vectors.value[i]));
      start := end;
    }
    assert needing[..|needing|] == needing;
    return Some(toInsert);
  }

  /** All rows of a job, or None when a batch failed, and then nothing is inserted. */
  method EmbedAndInsert(
      o: Oracle, plans: seq<Plan>, model: ModelId, provider: seq<string> -> Option<seq<Vector>>)
    returns (rows: Option<seq<Embedding>>)
    requires HonestProvider(o, model, provider)
    ensures rows.Some? ==> rows.value == EmbeddingRows(o, plans, model)
    ensures (forall batch :: |batch| <= 128 ==> Answers(provider, batch)) ==> rows.Some?
  {
    var toInsert: seq<Embedding> := [];
    for i := 0 to |plans|
      invariant toInsert == ReusedRows(plans[..i], model)
    {
      assert plans[..i + 1][..i] == plans[..i];
      if plans[i].reused.None? {
        continue;
      }
      toInsert := toInsert + [Row(plans[i], model, plans[i].reused.value)];
    }
    assert plans[..|plans|] == plans;
    var embedded := EmbedBatches(o, NeedVectors(plans), model, provider);
    if embedded.None? {
      return None;
    }
    return Some(toInsert + embedded.value);
  }

  // ---- What the plans promise ----

  /** The hash is the content's, and a reused vector is what embedding the content would give. */
  predicate SoundPlan(o: Oracle, model: ModelId, p: Plan) {
    && p.chunk.hash == o.hash(p.chunk.content)
    && p.chunk.model == model
    && (p.reused.Some? ==> p.reused.value == o.embed(model, p.chunk.content))
  }

  predicate SoundPlans(o: Oracle, model: ModelId, plans: seq<Plan>) {
    forall i | 0 <= i < |plans| :: SoundPlan(o, model, plans[i])
  }

  /** A previous row carries its content's hash and, if any, its own model's vector. */
  predicate SoundRow(o: Oracle, row: PreviousRow) {
    && row.chunk.hash == o.hash(row.chunk.content)
    && (row.vector.Some? ==> row.vector.value == o.embed(row.chunk.model, row.chunk.content))
  }

  ghost predicate SoundRows(o: Oracle, rows: seq<PreviousRow>) { forall i | 0 <= i < |rows| :: SoundRow(o, rows[i]) }

  lemma {:induction false} PreviousMapIsSound(o: Oracle, rows: seq<PreviousRow>, model: ModelId)
    requires SoundRows(o, rows)
    ensures forall p | p in PreviousByPosition(rows, model) ::
      SoundRow(o, PreviousByPosition(rows, model)[p]) && PreviousByPosition(rows, model)[p].chunk.model == model
  {
    if rows != [] { PreviousMapIsSound(o, rows[..|rows| - 1], model); }
  }

  lemma PlanPageIsSound(o: Oracle, snapshot: Id, model: ModelId, page: Page, rows: seq<PreviousRow>, firstId: Id)
    requires InjectiveHash(o) && SoundRows(o, rows)
    ensures SoundPlans(o, model, PlanPage(o, snapshot, model, page, PreviousByPosition(rows, model), firstId))
  {
    PreviousMapIsSound(o, rows, model);
  }

  lemma {:induction false} PlanPagesIsSound(
      o: Oracle, snapshot: Id, model: ModelId, pages: seq<Page>, rows: seq<PreviousRow>, firstId: Id)
    requires InjectiveHash(o) && SoundRows(o, rows)
    ensures SoundPlans(o, model, PlanPages(o, snapshot, model, pages, PreviousByPosition(rows, model), firstId))
  {
    if pages != [] {
      var init, previous := pages[..|pages| - 1], PreviousByPosition(rows, model);
      PlanPagesIsSound(o, snapshot, model, init, rows, firstId);
      PlanPageIsSound(o, snapshot, model, pages[|pages| - 1], rows,
        firstId + |PlanPages(o, snapshot, model, init, previous, firstId)|);
    }
  }

  /** Different models give different vectors for every text. */
  ghost predicate ModelsDiffer(o: Oracle) { forall m, n, text :: m != n ==> o.embed(m, text) != o.embed(n, text) }

  /** Every row of another page that has a vector was made with the model. */
  predicate CopiesMatch(rows: seq<PreviousRow>, target: PageId, model: ModelId) {
    forall i | 0 <= i < |rows| && rows[i].chunk.page != target && rows[i].vector.Some? :: rows[i].chunk.model == model
  }

  predicate CopyMatches(row: PreviousRow, target: PageId, model: ModelId) {
    row.chunk.page != target && row.vector.Some? ==> row.chunk.model == model
  }

  lemma CopiesMatchLast(rows: seq<PreviousRow>, target: PageId, model: ModelId)
    requires rows != []
    ensures CopiesMatch(rows, target, model) <==>
      CopiesMatch(rows[..|rows| - 1], target, model) && CopyMatches(rows[|rows| - 1], target, model)
  {
    var front := rows[..|rows| - 1];
    assert forall i | 0 <= i < |front| :: front[i] == rows[i];
  }

  lemma SoundPlansAppend(o: Oracle, model: ModelId, a: seq<Plan>, b: seq<Plan>)
    ensures SoundPlans(o, model, a + b) <==> SoundPlans(o, model, a) && SoundPlans(o, model, b)
  {
    if SoundPlans(o, model, a + b) {
      forall i | 0 <= i < |a| ensures SoundPlan(o, model, a[i]) { assert (a + b)[i] == a[i]; }
      forall i | 0 <= i < |b| ensures SoundPlan(o, model, b[i]) { assert (a + b)[|a| + i] == b[i]; }
    }
  }

  /** Copies whose models match are sound, and where models differ no others are. */
  lemma {:induction false} CopiesAreSoundIff(
      o: Oracle, snapshot: Id, model: ModelId, target: PageId, rows: seq<PreviousRow>, firstId: Id)
    requires SoundRows(o, rows)
    ensures var sound := SoundPlans(o, model, CopyOthers(snapshot, model, target, rows, firstId));
      (CopiesMatch(rows, target, model) ==> sound) && (ModelsDiffer(o) && sound ==> CopiesMatch(rows, target, model))
  {
    if rows != [] {
      var init, row := rows[..|rows| - 1], rows[|rows| - 1];
      CopiesAreSoundIff(o, snapshot, model, target, init, firstId);
      CopiesMatchLast(rows, target, model);
      if row.chunk.page != target {
        var before := CopyOthers(snapshot, model, target, init, firstId);
        var copy := Plan(row.chunk.(id := firstId + |before|, snapshot := snapshot, model := model), row.vector);
        SoundPlansAppend(o, model, before, [copy]);
        CopyIsSoundIff(o, model, row, copy);
      }
    }
  }

  lemma CopyIsSoundIff(o: Oracle, model: ModelId, row: PreviousRow, copy: Plan)
    requires SoundRow(o, row) && copy.reused == row.vector
    requires copy.chunk == row.chunk.(id := copy.chunk.id, snapshot := copy.chunk.snapshot, model := model)
    ensures row.vector.None? || row.chunk.model == model ==> SoundPlans(o, model, [copy])
    ensures ModelsDiffer(o) && SoundPlans(o, model, [copy]) ==> row.vector.None? || row.chunk.model == model
  {
    assert SoundPlans(o, model, [copy]) <==> SoundPlan(o, model, [copy][0]);
  }

  /**
    A single-page job plans only right vectors if and only if every row it copies with a vector
    was made with the current model.
   */
  lemma SinglePageIsSoundIff(
      o: Oracle, snapshot: Id, model: ModelId, target: Page, rows: seq<PreviousRow>, firstId: Id)
    requires InjectiveHash(o) && ModelsDiffer(o) && SoundRows(o, rows)
    ensures SoundPlans(o, model, PlanSinglePage(o, snapshot, model, target, rows, firstId))
      <==> CopiesMatch(rows, target.id, model)
  {
    var copies := CopyOthers(snapshot, model, target.id, rows, firstId);
    CopiesAreSoundIff(o, snapshot, model, target.id, rows, firstId);
    PlanPageIsSound(o, snapshot, model, target, rows, firstId + |copies|);
    SoundPlansAppend(o, model, copies,
      PlanPage(o, snapshot, model, target, PreviousByPosition(rows, model), firstId + |copies|));
  }

  /** That they match suffices even where models may agree on a text. */
  lemma SinglePageIsSound(
      o: Oracle, snapshot: Id, model: ModelId, target: Page, rows: seq<PreviousRow>, firstId: Id)
    requires InjectiveHash(o) && SoundRows(o, rows) && CopiesMatch(rows, target.id, model)
    ensures SoundPlans(o, model, PlanSinglePage(o, snapshot, model, target, rows, firstId))
  {
    var copies := CopyOthers(snapshot, model, target.id, rows, firstId);
    CopiesAreSoundIff(o, snapshot, model, target.id, rows, firstId);
    PlanPageIsSound(o, snapshot, model, target, rows, firstId + |copies|);
    SoundPlansAppend(o, model, copies,
      PlanPage(o, snapshot, model, target, PreviousByPosition(rows, model), firstId + |copies|));
  }

  // ---- What is reused ----

  /** Some row of the model at the chunk's place, the last of these, has the same content and a vector. */
  predicate Unchanged(rows: seq<PreviousRow>, model: ModelId, c: Chunk, i: nat, v: Vector) {
    LastAt(rows, model, (c.page, c.index), i) && rows[i].chunk.content == c.content && rows[i].vector == Some(v)
  }

  lemma OneLast(rows: seq<PreviousRow>, model: ModelId, p: Position, i: nat, k: nat)
    requires LastAt(rows, model, p, i) && LastAt(rows, model, p, k)
    ensures i == k
  {
  }

  lemma PageReuses(
      o: Oracle, snapshot: Id, model: ModelId, page: Page, rows: seq<PreviousRow>, firstId: Id, n: nat, v: Vector)
    requires InjectiveHash(o) && SoundRows(o, rows) && n < |page.contents|
    ensures var plan := PlanPage(o, snapshot, model, page, PreviousByPosition(rows, model), firstId)[n];
      plan.reused == Some(v) <==> exists i: nat :: Unchanged(rows, model, plan.chunk, i, v)
  {
    var previous, p := PreviousByPosition(rows, model), (page.id, n);
    var plan := PlanPage(o, snapshot, model, page, previous, firstId)[n];
    LastRowWins(rows, model, p);
    if p in previous {
      var i: nat :| LastAt(rows, model, p, i);
      assert SoundRow(o, rows[i]);
      if plan.reused == Some(v) { assert Unchanged(rows, model, plan.chunk, i, v); }
      if k: nat :| Unchanged(rows, model, plan.chunk, k, v) { OneLast(rows, model, p, i, k); }
    }
  }

  /** A rebuild reuses a vector exactly where the chunk at that place is unchanged and has it. */
  lemma {:induction false} RebuildReusesIff(
      o: Oracle, snapshot: Id, model: ModelId, pages: seq<Page>, rows: seq<PreviousRow>, firstId: Id, n: nat, v: Vector)
    requires InjectiveHash(o) && SoundRows(o, rows)
    ensures var plans := PlanPages(o, snapshot, model, pages, PreviousByPosition(rows, model), firstId);
      n < |plans| ==> (plans[n].reused == Some(v) <==> exists i: nat :: Unchanged(rows, model, plans[n].chunk, i, v))
  {
    if pages != [] {
      var last, previous := pages[|pages| - 1], PreviousByPosition(rows, model);
      var before := PlanPages(o, snapshot, model, pages[..|pages| - 1], previous, firstId);
      RebuildReusesIff(o, snapshot, model, pages[..|pages| - 1], rows, firstId, n, v);
      if |before| <= n < |before| + |last.contents| {
        PageReuses(o, snapshot, model, last, rows, firstId + |before|, n - |before|, v);
      }
    }
  }

  lemma {:induction false} CopyAt(
      snapshot: Id, model: ModelId, target: PageId, rows: seq<PreviousRow>, firstId: Id, n: nat)
    requires n < |CopyOthers(snapshot, model, target, rows, firstId)|
    ensures var plan := CopyOthers(snapshot, model, target, rows, firstId)[n];
      exists row :: row in rows && row.chunk.page != target && Place(row.chunk) == Place(plan.chunk)
                    && plan.reused == row.vector
  {
    var init, row := rows[..|rows| - 1], rows[|rows| - 1];
    if n < |CopyOthers(snapshot, model, target, init, firstId)| {
      CopyAt(snapshot, model, target, init, firstId, n);
    } else {
      assert row in rows;
    }
  }

  /** A single-page job copies the other pages' vectors, and on its page reuses where a rebuild would. */
  lemma SinglePageReusesIff(
      o: Oracle, snapshot: Id, model: ModelId, target: Page, rows: seq<PreviousRow>, firstId: Id, n: nat, v: Vector)
    requires InjectiveHash(o) && SoundRows(o, rows)
    ensures var plans := PlanSinglePage(o, snapshot, model, target, rows, firstId);
      n < |plans| ==>
        if plans[n].chunk.page == target.id
        then plans[n].reused == Some(v) <==> exists i: nat :: Unchanged(rows, model, plans[n].chunk, i, v)
        else exists row :: row in rows && Place(row.chunk) == Place(plans[n].chunk) && plans[n].reused == row.vector
  {
    var copied := CopyOthers(snapshot, model, target.id, rows, firstId);
    if n < |copied| {
      CopyAt(snapshot, model, target.id, rows, firstId, n);
    } else if n < |copied| + |target.contents| {
      PageReuses(o, snapshot, model, target, rows, firstId + |copied|, n - |copied|, v);
    }
  }

  // ---- The rows a job inserts ----

  /** Ids count up from firstId. */
  predicate Numbered(plans: seq<Plan>, snapshot: Id, firstId: Id) {
    forall i | 0 <= i < |plans| :: plans[i].chunk.id == firstId + i && plans[i].chunk.snapshot == snapshot
  }

  lemma {:induction false} PlanPagesIsNumbered(
      o: Oracle, snapshot: Id, model: ModelId, pages: seq<Page>, previous: PreviousMap, firstId: Id)
    ensures Numbered(PlanPages(o, snapshot, model, pages, previous, firstId), snapshot, firstId)
  {
    if pages != [] { PlanPagesIsNumbered(o, snapshot, model, pages[..|pages| - 1], previous, firstId); }
  }

  lemma {:induction false} CopiesAreNumbered(
      snapshot: Id, model: ModelId, target: PageId, rows: seq<PreviousRow>, firstId: Id)
    ensures Numbered(CopyOthers(snapshot, model, target, rows, firstId), snapshot, firstId)
  {
    if rows != [] { CopiesAreNumbered(snapshot, model, target, rows[..|rows| - 1], firstId); }
  }

  lemma SinglePageIsNumbered(
      o: Oracle, snapshot: Id, model: ModelId, target: Page, rows: seq<PreviousRow>, firstId: Id)
    ensures Numbered(PlanSinglePage(o, snapshot, model, target, rows, firstId), snapshot, firstId)
  {
    CopiesAreNumbered(snapshot, model, target.id, rows, firstId);
  }

  /** The vectors stored for one chunk. */
  function VectorsOf(rows: seq<Embedding>, chunk: Id): seq<Vector> {
    if rows == [] then []
    else
      var row := rows[|rows| - 1];
      VectorsOf(rows[..|rows| - 1], chunk) + if row.chunk == chunk then [row.vector] else []
  }

  lemma {:induction false} VectorsOfConcat(a: seq<Embedding>, b: seq<Embedding>, chunk: Id)
    ensures VectorsOf(a + b, chunk) == VectorsOf(a, chunk) + VectorsOf(b, chunk)
  {
    if b == [] {
      assert a + b == a;
    } else {
      VectorsOfConcat(a, b[..|b| - 1], chunk);
      assert (a + b)[..|a + b| - 1] == a + b[..|b| - 1];
    }
  }

  lemma OneMoreVector(rows: seq<Embedding>, row: Embedding, chunk: Id)
    ensures VectorsOf(rows + [row], chunk) == VectorsOf(rows, chunk) + if row.chunk == chunk then [row.vector] else []
  {
    assert (rows + [row])[..|rows|] == rows;
  }

  predicate Among(plans: seq<Plan>, firstId: Id, chunk: Id) { firstId <= chunk < firstId + |plans| }

  /** The reused vector of the chunk's plan, if it has one. */
  function ReusedFor(plans: seq<Plan>, firstId: Id, chunk: Id): seq<Vector> {
    if Among(plans, firstId, chunk) && plans[chunk - firstId].reused.Some?
    then [plans[chunk - firstId].reused.value] else []
  }

  lemma ReusedForLast(plans: seq<Plan>, firstId: Id, chunk: Id)
    requires plans != []
    ensures var n := |plans| - 1;
      ReusedFor(plans, firstId, chunk) == ReusedFor(plans[..n], firstId, chunk) +
        if chunk == firstId + n && plans[n].reused.Some? then [plans[n].reused.value] else []
  {
  }

  lemma {:induction false} ReusedVectors(plans: seq<Plan>, model: ModelId, snapshot: Id, firstId: Id, chunk: Id)
    requires Numbered(plans, snapshot, firstId)
    ensures VectorsOf(ReusedRows(plans, model), chunk) == ReusedFor(plans, firstId, chunk)
  {
    if plans != [] {
      var init, plan := plans[..|plans| - 1], plans[|plans| - 1];
      ReusedVectors(init, model, snapshot, firstId, chunk);
      ReusedForLast(plans, firstId, chunk);
      if plan.reused.Some? {
        OneMoreVector(ReusedRows(init, model), Row(plan, model, plan.reused.value), chunk);
      } else {
        assert ReusedRows(plans, model) == ReusedRows(init, model);
      }
    }
  }

  lemma FreshGrows(o: Oracle, plans: seq<Plan>, model: ModelId)
    requires plans != []
    ensures var init, plan := plans[..|plans| - 1], plans[|plans| - 1];
      FreshRows(o, NeedVectors(plans), model) == FreshRows(o, NeedVectors(init), model)
        + if plan.reused.None? then [Row(plan, model, o.embed(model, plan.chunk.content))] else []
  {
  }

  /** The embedded vector of the chunk's plan, if it waits for one. */
  function FreshFor(o: Oracle, plans: seq<Plan>, model: ModelId, firstId: Id, chunk: Id): seq<Vector> {
    if Among(plans, firstId, chunk) && plans[chunk - firstId].reused.None?
    then [o.embed(model, plans[chunk - firstId].chunk.content)] else []
  }

  lemma FreshForLast(o: Oracle, plans: seq<Plan>, model: ModelId, firstId: Id, chunk: Id)
    requires plans != []
    ensures var n := |plans| - 1;
      FreshFor(o, plans, model, firstId, chunk) == FreshFor(o, plans[..n], model, firstId, chunk) +
        if chunk == firstId + n && plans[n].reused.None? then [o.embed(model, plans[n].chunk.content)] else []
  {
  }

  lemma {:induction false} FreshVectors(
      o: Oracle, plans: seq<Plan>, model: ModelId, snapshot: Id, firstId: Id, chunk: Id)
    requires Numbered(plans, snapshot, firstId)
    ensures VectorsOf(FreshRows(o, NeedVectors(plans), model), chunk) == FreshFor(o, plans, model, firstId, chunk)
  {
    if plans != [] {
      var init, plan := plans[..|plans| - 1], plans[|plans| - 1];
      FreshVectors(o, init, model, snapshot, firstId, chunk);
      FreshForLast(o, plans, model, firstId, chunk);
      var rows := FreshRows(o, NeedVectors(init), model);
      FreshGrows(o, plans, model);
      if plan.reused.None? {
        OneMoreVector(rows, Row(plan, model, o.embed(model, plan.chunk.content)), chunk);
      } else {
        assert rows + [] == rows;
      }
    }
  }

  /** With sound plans every planned chunk gets exactly one vector, the recomputed one; no other chunk gets any. */
  lemma OneVectorEach(o: Oracle, plans: seq<Plan>, model: ModelId, snapshot: Id, firstId: Id, chunk: Id)
    requires SoundPlans(o, model, plans) && Numbered(plans, snapshot, firstId)
    ensures VectorsOf(EmbeddingRows(o, plans, model), chunk)
      == if Among(plans, firstId, chunk) then [o.embed(model, plans[chunk - firstId].chunk.content)] else []
  {
    VectorsOfConcat(ReusedRows(plans, model), FreshRows(o, NeedVectors(plans), model), chunk);
    ReusedVectors(plans, model, snapshot, firstId, chunk);
    FreshVectors(o, plans, model, snapshot, firstId, chunk);
    assert Among(plans, firstId, chunk) ==> SoundPlan(o, model, plans[chunk - firstId]);
  }

  lemma {:induction false} ReusedNameTheModel(plans: seq<Plan>, model: ModelId)
    ensures forall e | e in ReusedRows(plans, model) :: e.model == model
  {
    if plans != [] { ReusedNameTheModel(plans[..|plans| - 1], model); }
  }

  /** Every row a job inserts names the job's model. */
  lemma RowsNameTheModel(o: Oracle, plans: seq<Plan>, model: ModelId)
    ensures forall e | e in EmbeddingRows(o, plans, model) :: e.model == model
  {
    ReusedNameTheModel(plans, model);
    var reused, embedded := ReusedRows(plans, model), FreshRows(o, NeedVectors(plans), model);
    forall e: Embedding | e in reused + embedded ensures e.model == model {
      if e !in reused {
        var i :| 0 <= i < |embedded| && embedded[i] == e;
        assert embedded[i] == Row(NeedVectors(plans)[i], model, o.embed(model, NeedVectors(plans)[i].chunk.content));
      }
    }
  }

  /** Rebuilding with any sound cache stores, chunk by chunk, what rebuilding from nothing stores. */
  lemma ReuseAgreesWithRecompute(
      o: Oracle, snapshot: Id, model: ModelId, pages: seq<Page>, rows: seq<PreviousRow>, firstId: Id, chunk: Id)
    requires InjectiveHash(o) && SoundRows(o, rows)
    ensures var cached := PlanPages(o, snapshot, model, pages, PreviousByPosition(rows, model), firstId);
      var scratch := PlanPages(o, snapshot, model, pages, map[], firstId);
      && |cached| == |scratch|
      && (forall i | 0 <= i < |cached| :: cached[i].chunk == scratch[i].chunk)
      && VectorsOf(EmbeddingRows(o, cached, model), chunk) == VectorsOf(EmbeddingRows(o, scratch, model), chunk)
  {
    assert PreviousByPosition([], model) == map[];
    SameChunks(o, snapshot, model, pages, PreviousByPosition(rows, model), firstId);
    PlanPagesIsSound(o, snapshot, model, pages, rows, firstId);
    PlanPagesIsSound(o, snapshot, model, pages, [], firstId);
    PlanPagesIsNumbered(o, snapshot, model, pages, PreviousByPosition(rows, model), firstId);
    PlanPagesIsNumbered(o, snapshot, model, pages, map[], firstId);
    var plans := PlanPages(o, snapshot, model, pages, PreviousByPosition(rows, model), firstId);
    OneVectorEach(o, plans, model, snapshot, firstId, chunk);
    OneVectorEach(o, PlanPages(o, snapshot, model, pages, map[], firstId), model, snapshot, firstId, chunk);
  }

  lemma {:induction false} SameChunks(
      o: Oracle, snapshot: Id, model: ModelId, pages: seq<Page>, previous: PreviousMap, firstId: Id)
    ensures var cached := PlanPages(o, snapshot, model, pages, previous, firstId);
      var scratch := PlanPages(o, snapshot, model, pages, map[], firstId);
      |cached| == |scratch| && forall i | 0 <= i < |cached| :: cached[i].chunk == scratch[i].chunk
  {
    if pages != [] { SameChunks(o, snapshot, model, pages[..|pages| - 1], previous, firstId); }
  }

  // ---- Which chunks a plan covers ----

  /** Where a chunk sits and what it says. */
  function Place(c: Chunk): (PageId, nat, string) { (c.page, c.index, c.content) }

  function Places(plans: seq<Plan>): seq<(PageId, nat, string)> {
    seq(|plans|, i requires 0 <= i < |plans| => Place(plans[i].chunk))
  }

  function PagePlaces(page: Page): seq<(PageId, nat, string)> {
    seq(|page.contents|, i requires 0 <= i < |page.contents| => (page.id, i, page.contents[i]))
  }

  function AllPlaces(pages: seq<Page>): seq<(PageId, nat, string)> {
    if pages == [] then [] else AllPlaces(pages[..|pages| - 1]) + PagePlaces(pages[|pages| - 1])
  }

  function OtherPlaces(rows: seq<PreviousRow>, target: PageId): seq<(PageId, nat, string)> {
    if rows == [] then []
    else
      var chunk := rows[|rows| - 1].chunk;
      OtherPlaces(rows[..|rows| - 1], target) + if chunk.page == target then [] else [Place(chunk)]
  }

  /** A rebuild covers every chunk of every page once, in order. */
  lemma {:induction false} RebuildCoversThePages(
      o: Oracle, snapshot: Id, model: ModelId, pages: seq<Page>, previous: PreviousMap, firstId: Id)
    ensures Places(PlanPages(o, snapshot, model, pages, previous, firstId)) == AllPlaces(pages)
  {
    if pages != [] { RebuildCoversThePages(o, snapshot, model, pages[..|pages| - 1], previous, firstId); }
  }

  /** A single-page job covers the other pages' previous chunks and then the target's new ones. */
  lemma SinglePageCovers(
      o: Oracle, snapshot: Id, model: ModelId, target: Page, rows: seq<PreviousRow>, firstId: Id)
    ensures Places(PlanSinglePage(o, snapshot, model, target, rows, firstId))
      == OtherPlaces(rows, target.id) + PagePlaces(target)
  {
    CopiesCoverOthers(snapshot, model, target.id, rows, firstId);
  }

  lemma {:induction false} CopiesCoverOthers(
      snapshot: Id, model: ModelId, target: PageId, rows: seq<PreviousRow>, firstId: Id)
    ensures Places(CopyOthers(snapshot, model, target, rows, firstId)) == OtherPlaces(rows, target)
  {
    if rows != [] { CopiesCoverOthers(snapshot, model, target, rows[..|rows| - 1], firstId); }
  }
}
