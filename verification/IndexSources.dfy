/**
  Where the pieces of a snapshot come from: in every run a job plans from the chunks of the
  snapshot that was active when it looked, and copies those of the other pages.
 */
module IndexSources {
  import opened Options
  import opened Snapshots
  import opened IndexPlans
  import opened IndexRuns
  import opened IndexContents

  /** The row of chunk c: the chunk with the one vector stored for it. */
  predicate RowIs(db: Db, c: Id, row: PreviousRow) {
    && c in db.chunks && row.chunk == db.chunks[c]
    && row.vector.Some? && VectorsOf(db.rows, c) == [row.vector.value]
  }

  /** One row for each chunk of the snapshot, in some order. */
  ghost predicate Lists(db: Db, snapshot: Id, order: seq<Id>, rows: seq<PreviousRow>) {
    && |rows| == |order| && Distinct(order)
    && (forall c {:trigger InSnapshot(db, snapshot, c)} :: c in order <==> InSnapshot(db, snapshot, c))
    && (forall i | 0 <= i < |order| :: RowIs(db, order[i], rows[i]))
  }

  predicate InSnapshot(db: Db, snapshot: Id, c: Id) { c in db.chunks && db.chunks[c].snapshot == snapshot }

  /** The rows are those of the snapshot that was seen; without one there are none. */
  ghost predicate RowsAre(db: Db, seen: Option<Id>, rows: seq<PreviousRow>) {
    match seen
    case None => rows == []
    case Some(snapshot) => exists order :: Lists(db, snapshot, order, rows)
  }

  predicate SeenLive(db: Db, seen: Option<Id>, space: SpaceId) {
    seen.Some? ==>
      seen.value in db.snapshots && Live(db.snapshots[seen.value]) && db.snapshots[seen.value].space == space
  }

  // ---- Loading ----

  lemma {:induction false} JoinedRow(o: Oracle, db: Db, snapshot: Id, order: seq<Id>, i: nat)
    requires snapshot in db.snapshots && Exact(o, db, snapshot)
    requires forall c | c in order :: c in db.chunks && db.chunks[c].snapshot == snapshot
    ensures |LeftJoin(db, order)| == |order|
    ensures i < |order| ==> RowIs(db, order[i], LeftJoin(db, order)[i])
  {
    if order != [] {
      var init, last := order[..|order| - 1], order[|order| - 1];
      JoinedRow(o, db, snapshot, init, i);
      assert InSnapshot(db, snapshot, last);
      assert ExactChunk(o, db, last, db.snapshots[snapshot].model);
    }
  }

  /** The query lists the chunks of a live snapshot, each once and with its vector. */
  lemma JoinLists(o: Oracle, db: Db, snapshot: Id, order: seq<Id>)
    requires snapshot in db.snapshots && Exact(o, db, snapshot)
    requires Enumerates(order, ChunksOf(db, snapshot))
    ensures Lists(db, snapshot, order, LeftJoin(db, order))
  {
    forall c ensures c in order <==> InSnapshot(db, snapshot, c) {
      assert c in order <==> c in (set d | d in order);
      assert InSnapshot(db, snapshot, c) <==> c in ChunksOf(db, snapshot);
    }
    JoinedRow(o, db, snapshot, order, 0);
    forall i | 0 <= i < |order| ensures RowIs(db, order[i], LeftJoin(db, order)[i]) {
      JoinedRow(o, db, snapshot, order, i);
    }
  }

  // ---- Chunks of live snapshots never change ----

  predicate SameChunk(db: Db, db': Db, snapshot: Id, c: Id) {
    && (InSnapshot(db', snapshot, c) <==> InSnapshot(db, snapshot, c))
    && (InSnapshot(db, snapshot, c) ==>
          c in db'.chunks && db'.chunks[c] == db.chunks[c] && VectorsOf(db'.rows, c) == VectorsOf(db.rows, c))
  }

  lemma InsertedElsewhere(o: Oracle, s: State, j: JobId, t: State, a: Id, c: Id)
    requires InjectiveHash(o) && Inv(o, s) && PhaseOf(s, j).Created? && ModelsMatch(s, InsertChunks(j))
    requires Apply(o, s, InsertChunks(j)) == Some(t) && a in s.db.snapshots && Live(s.db.snapshots[a])
    ensures SameChunk(s.db, t.db, a, c)
  {
    var p := PhaseOf(s, j);
    assert PhaseFits(o, s.db, p);
    PlansAreSound(o, s, j);
    AddedChunk(s.db.chunks, PlansFor(o, p.task, p.rows, p.snapshot, s.db.nextId), s.db.nextId, c);
  }

  lemma EmbeddedElsewhere(o: Oracle, s: State, j: JobId, t: State, a: Id, c: Id)
    requires Inv(o, s) && PhaseOf(s, j).Inserted?
    requires Apply(o, s, InsertEmbeddings(j)) == Some(t) && a in s.db.snapshots && Live(s.db.snapshots[a])
    ensures SameChunk(s.db, t.db, a, c)
  {
    var p := PhaseOf(s, j);
    assert PhaseFits(o, s.db, p);
    EmbeddedTablesFit(o, s.db, t.db, p.task, p.snapshot, p.plans, p.firstId);
  }

  lemma LiveChunksStay(o: Oracle, s: State, step: Step, t: State, a: Id, c: Id)
    requires InjectiveHash(o) && Inv(o, s) && Apply(o, s, step) == Some(t) && ModelsMatch(s, step)
    requires a in s.db.snapshots && Live(s.db.snapshots[a])
    ensures SameChunk(s.db, t.db, a, c)
  {
    if step.InsertChunks? {
      InsertedElsewhere(o, s, step.j, t, a, c);
    } else if step.InsertEmbeddings? {
      EmbeddedElsewhere(o, s, step.j, t, a, c);
    }
  }

  lemma SeenStaysLive(o: Oracle, s: State, step: Step, t: State, seen: Option<Id>, space: SpaceId)
    requires Inv(o, s) && Apply(o, s, step) == Some(t) && SeenLive(s.db, seen, space)
    ensures SeenLive(t.db, seen, space)
  {
    if step.Fail? { assert PhaseFits(o, s.db, PhaseOf(s, step.j)); }
  }

  lemma ListsStays(db: Db, db': Db, snapshot: Id, order: seq<Id>, rows: seq<PreviousRow>)
    requires Lists(db, snapshot, order, rows) && forall c :: SameChunk(db, db', snapshot, c)
    ensures Lists(db', snapshot, order, rows)
  {
    forall c ensures c in order <==> InSnapshot(db', snapshot, c) {
      assert SameChunk(db, db', snapshot, c);
    }
    forall i | 0 <= i < |order| ensures RowIs(db', order[i], rows[i]) {
      assert SameChunk(db, db', snapshot, order[i]) && RowIs(db, order[i], rows[i]);
      assert InSnapshot(db, snapshot, order[i]);
    }
  }

  lemma RowsStay(
      o: Oracle, s: State, step: Step, t: State, seen: Option<Id>, space: SpaceId, rows: seq<PreviousRow>)
    requires InjectiveHash(o) && Inv(o, s) && Apply(o, s, step) == Some(t) && ModelsMatch(s, step)
    requires SeenLive(s.db, seen, space) && RowsAre(s.db, seen, rows)
    ensures SeenLive(t.db, seen, space) && RowsAre(t.db, seen, rows)
  {
    SeenStaysLive(o, s, step, t, seen, space);
    if seen.Some? {
      var order :| Lists(s.db, seen.value, order, rows);
      forall c ensures SameChunk(s.db, t.db, seen.value, c) { LiveChunksStay(o, s, step, t, seen.value, c); }
      ListsStays(s.db, t.db, seen.value, order, rows);
    }
  }

  // ---- What a job has seen ----

  ghost predicate SeenAt(db: Db, seen: map<JobId, Option<Id>>, j: JobId, p: Phase) {
    p.SawActive? || p.Loaded? || p.Created? ==>
      && j in seen && SeenLive(db, seen[j], p.task.space)
      && (if p.SawActive? then p.active == seen[j] else RowsAre(db, seen[j], p.rows))
  }

  lemma LooksAt(o: Oracle, s: State, j: JobId, t: State, seen: map<JobId, Option<Id>>)
    requires Inv(o, s) && Apply(o, s, SeeActive(j)) == Some(t)
    ensures SeenAt(t.db, seen + SeenBy(s, SeeActive(j)), j, PhaseOf(t, j))
  {
  }

  lemma FirstIsListed(order: seq<Id>)
    ensures order == [] || order[0] in (set c | c in order)
  {
  }

  lemma LoadsRows(o: Oracle, s: State, j: JobId, order: seq<Id>, t: State, seen: map<JobId, Option<Id>>)
    requires Inv(o, s) && Apply(o, s, Load(j, order)) == Some(t) && SeenAt(s.db, seen, j, PhaseOf(s, j))
    ensures SeenAt(t.db, seen, j, PhaseOf(t, j))
  {
    var p := PhaseOf(s, j);
    if p.active.Some? {
      JoinLists(o, s.db, p.active.value, order);
    } else {
      FirstIsListed(order);
    }
  }

  lemma SeenAtStep(o: Oracle, s: State, step: Step, t: State, seen: map<JobId, Option<Id>>, j: JobId)
    requires InjectiveHash(o) && Inv(o, s) && Apply(o, s, step) == Some(t) && ModelsMatch(s, step)
    requires SeenAt(s.db, seen, j, PhaseOf(s, j))
    ensures SeenAt(t.db, seen + SeenBy(s, step), j, PhaseOf(t, j))
  {
    var p := PhaseOf(s, j);
    if step == SeeActive(j) {
      LooksAt(o, s, j, t, seen);
    } else if step.Load? && step.j == j {
      LoadsRows(o, s, j, step.order, t, seen);
      assert seen + SeenBy(s, step) == seen;
    } else if p.SawActive? {
      SeenStaysLive(o, s, step, t, seen[j], p.task.space);
    } else if p.Loaded? || p.Created? {
      RowsStay(o, s, step, t, seen[j], p.task.space, p.rows);
    }
  }

  lemma {:induction false} SeenAtAlways(o: Oracle, steps: seq<Step>, s: State, j: JobId)
    requires InjectiveHash(o) && ModelCheckedRun(o, steps) && Run(o, steps) == Some(s)
    ensures SeenAt(s.db, AllSeen(o, steps), j, PhaseOf(s, j))
  {
    if steps != [] {
      var init := steps[..|steps| - 1];
      var before := Run(o, init).value;
      SeenAtAlways(o, init, before, j);
      InvHolds(o, init);
      SeenAtStep(o, before, steps[|steps| - 1], s, AllSeen(o, init), j);
    }
  }

  /**
    In every run, the rows a job has loaded are those of the snapshot that was active for its space
    when it looked: one row for each of its chunks, with the vector stored for it.
   */
  lemma LoadedRowsAreTheSeenChunks(o: Oracle, steps: seq<Step>, s: State, j: JobId)
    requires InjectiveHash(o) && ModelCheckedRun(o, steps) && Run(o, steps) == Some(s)
    requires PhaseOf(s, j).Loaded? || PhaseOf(s, j).Created?
    ensures var p, seen := PhaseOf(s, j), AllSeen(o, steps);
      j in seen && SeenLive(s.db, seen[j], p.task.space) && RowsAre(s.db, seen[j], p.rows)
  {
    SeenAtAlways(o, steps, s, j);
  }

  // ---- What a snapshot was made from ----

  ghost predicate MadeFrom(db: Db, made: map<Id, Made>, id: Id) {
    id in made ==> SeenLive(db, made[id].seen, made[id].task.space) && RowsAre(db, made[id].seen, made[id].rows)
  }

  lemma MadeFromStep(
      o: Oracle, s: State, step: Step, t: State, made: map<Id, Made>, seen: map<JobId, Option<Id>>, id: Id)
    requires InjectiveHash(o) && Inv(o, s) && Apply(o, s, step) == Some(t) && ModelsMatch(s, step)
    requires MadeFrom(s.db, made, id) && (step.InsertChunks? ==> SeenAt(s.db, seen, step.j, PhaseOf(s, step.j)))
    ensures MadeFrom(t.db, made + MadeBy(s, step, seen), id)
  {
    if step.InsertChunks? && PhaseOf(s, step.j).snapshot == id {
      var p := PhaseOf(s, step.j);
      RowsStay(o, s, step, t, seen[step.j], p.task.space, p.rows);
    } else if id in made {
      RowsStay(o, s, step, t, made[id].seen, made[id].task.space, made[id].rows);
    }
  }

  lemma {:induction false} MadeFromAlways(o: Oracle, steps: seq<Step>, s: State, id: Id)
    requires InjectiveHash(o) && ModelCheckedRun(o, steps) && Run(o, steps) == Some(s)
    ensures MadeFrom(s.db, AllMade(o, steps), id)
  {
    if steps != [] {
      var init, step := steps[..|steps| - 1], steps[|steps| - 1];
      var before := Run(o, init).value;
      MadeFromAlways(o, init, before, id);
      InvHolds(o, init);
      if step.InsertChunks? { SeenAtAlways(o, init, before, step.j); }
      MadeFromStep(o, before, step, s, AllMade(o, init), AllSeen(o, init), id);
    }
  }

  // ---- Counting pieces ----

  /** How many chunks of the snapshot are the piece. */
  function PieceCount(db: Db, snapshot: Id, piece: (PageId, nat, string)): nat {
    |set c | c in db.chunks && db.chunks[c].snapshot == snapshot && Place(db.chunks[c]) == piece|
  }

  ghost predicate Spots(db: Db, order: seq<Id>, places: seq<(PageId, nat, string)>) {
    && |order| == |places| && Distinct(order)
    && forall i | 0 <= i < |order| :: order[i] in db.chunks && Place(db.chunks[order[i]]) == places[i]
  }

  ghost function At(db: Db, order: seq<Id>, piece: (PageId, nat, string)): set<Id> {
    set c | c in order && c in db.chunks && Place(db.chunks[c]) == piece
  }

  lemma {:induction false} CountAt(
      db: Db, order: seq<Id>, places: seq<(PageId, nat, string)>, piece: (PageId, nat, string))
    requires Spots(db, order, places)
    ensures |At(db, order, piece)| == multiset(places)[piece]
  {
    if order != [] {
      var init, last := order[..|order| - 1], order[|order| - 1];
      CountAt(db, init, places[..|places| - 1], piece);
      assert places == places[..|places| - 1] + [places[|places| - 1]];
      assert last !in init;
      assert At(db, order, piece) == At(db, init, piece) + if Place(db.chunks[last]) == piece then {last} else {};
    }
  }

  lemma CountOfAll(
      db: Db, snapshot: Id, order: seq<Id>, places: seq<(PageId, nat, string)>, piece: (PageId, nat, string))
    requires Spots(db, order, places)
    requires forall c :: c in order <==> c in db.chunks && db.chunks[c].snapshot == snapshot
    ensures PieceCount(db, snapshot, piece) == multiset(places)[piece]
  {
    CountAt(db, order, places, piece);
    assert At(db, order, piece)
      == set c | c in db.chunks && db.chunks[c].snapshot == snapshot && Place(db.chunks[c]) == piece;
  }

  lemma ContainedCount(
      db: Db, snapshot: Id, places: seq<(PageId, nat, string)>, firstId: Id, piece: (PageId, nat, string))
    requires Contains(db, snapshot, places, firstId)
    ensures PieceCount(db, snapshot, piece) == multiset(places)[piece]
  {
    var order: seq<Id> := seq(|places|, i requires 0 <= i < |places| => firstId + i);
    forall c: Id ensures c in order <==> firstId <= c < firstId + |places| {
      if firstId <= c < firstId + |places| { assert order[c - firstId] == c; }
    }
    CountOfAll(db, snapshot, order, places, piece);
  }

  function RowPlaces(rows: seq<PreviousRow>): seq<(PageId, nat, string)> {
    seq(|rows|, i requires 0 <= i < |rows| => Place(rows[i].chunk))
  }

  lemma ListedCount(
      db: Db, snapshot: Id, order: seq<Id>, rows: seq<PreviousRow>, piece: (PageId, nat, string))
    requires Lists(db, snapshot, order, rows)
    ensures PieceCount(db, snapshot, piece) == multiset(RowPlaces(rows))[piece]
  {
    forall c ensures c in order <==> c in db.chunks && db.chunks[c].snapshot == snapshot {
      assert c in order <==> InSnapshot(db, snapshot, c);
    }
    forall i | 0 <= i < |order| ensures order[i] in db.chunks && Place(db.chunks[order[i]]) == RowPlaces(rows)[i] {
      assert RowIs(db, order[i], rows[i]);
    }
    CountOfAll(db, snapshot, order, RowPlaces(rows), piece);
  }

  lemma {:induction false} OthersCount(rows: seq<PreviousRow>, target: PageId, piece: (PageId, nat, string))
    ensures multiset(OtherPlaces(rows, target))[piece]
      == if piece.0 == target then 0 else multiset(RowPlaces(rows))[piece]
  {
    if rows != [] {
      var init, last := rows[..|rows| - 1], rows[|rows| - 1];
      OthersCount(init, target, piece);
      assert RowPlaces(rows) == RowPlaces(init) + [Place(last.chunk)];
    }
  }

  lemma {:induction false} PageCount(page: Page, n: nat, piece: (PageId, nat, string))
    requires n <= |page.contents|
    ensures multiset(PagePlaces(page)[..n])[piece]
      == if piece.0 == page.id && piece.1 < n && piece.2 == page.contents[piece.1] then 1 else 0
  {
    if n > 0 {
      PageCount(page, n - 1, piece);
      assert PagePlaces(page)[..n] == PagePlaces(page)[..n - 1] + [(page.id, n - 1, page.contents[n - 1])];
    }
  }

  /** The pieces of a page: one at each index. */
  function PagePieces(page: Page, piece: (PageId, nat, string)): nat {
    if piece.0 == page.id && piece.1 < |page.contents| && piece.2 == page.contents[piece.1] then 1 else 0
  }

  function PagesPieces(pages: seq<Page>, piece: (PageId, nat, string)): nat {
    if pages == [] then 0 else PagesPieces(pages[..|pages| - 1], piece) + PagePieces(pages[|pages| - 1], piece)
  }

  lemma WholePageCount(page: Page, piece: (PageId, nat, string))
    ensures multiset(PagePlaces(page))[piece] == PagePieces(page, piece)
  {
    PageCount(page, |page.contents|, piece);
    assert PagePlaces(page)[..|page.contents|] == PagePlaces(page);
  }

  lemma {:induction false} PagesCount(pages: seq<Page>, piece: (PageId, nat, string))
    ensures multiset(AllPlaces(pages))[piece] == PagesPieces(pages, piece)
  {
    if pages != [] {
      PagesCount(pages[..|pages| - 1], piece);
      WholePageCount(pages[|pages| - 1], piece);
    }
  }

  lemma SinglePageCount(rows: seq<PreviousRow>, target: Page, piece: (PageId, nat, string))
    ensures multiset(OtherPlaces(rows, target.id) + PagePlaces(target))[piece]
      == if piece.0 == target.id then PagePieces(target, piece) else multiset(RowPlaces(rows))[piece]
  {
    OthersCount(rows, target.id, piece);
    WholePageCount(target, piece);
  }

  lemma RowsCount(db: Db, seen: Option<Id>, rows: seq<PreviousRow>, piece: (PageId, nat, string))
    requires RowsAre(db, seen, rows)
    ensures multiset(RowPlaces(rows))[piece] == if seen.Some? then PieceCount(db, seen.value, piece) else 0
  {
    if seen.Some? {
      var order :| Lists(db, seen.value, order, rows);
      ListedCount(db, seen.value, order, rows, piece);
    }
  }

  /** How often a job should index a piece, in terms of the tables and of its task. */
  function WantedCount(db: Db, m: Made, piece: (PageId, nat, string)): nat {
    match m.task.scope
    case Rebuild(pages) => PagesPieces(pages, piece)
    case SinglePage(target) =>
      if piece.0 == target.id then PagePieces(target, piece)
      else if m.seen.Some? then PieceCount(db, m.seen.value, piece)
      else 0
  }

  lemma WantedIs(db: Db, m: Made, piece: (PageId, nat, string))
    requires RowsAre(db, m.seen, m.rows)
    ensures multiset(Wanted(m))[piece] == WantedCount(db, m, piece)
  {
    match m.task.scope
    case Rebuild(pages) => PagesCount(pages, piece);
    case SinglePage(target) =>
      SinglePageCount(m.rows, target, piece);
      RowsCount(db, m.seen, m.rows, piece);
  }

  /** A job goes on from what it has seen to the snapshot it makes. */
  ghost predicate SawAt(made: map<Id, Made>, seen: map<JobId, Option<Id>>, j: JobId, p: Phase) {
    p.Inserted? || p.Embedded? ==> p.snapshot in made && j in seen && made[p.snapshot].seen == seen[j]
  }

  lemma SawAtStep(
      o: Oracle, s: State, step: Step, t: State, made: map<Id, Made>, seen: map<JobId, Option<Id>>, j: JobId)
    requires Inv(o, s) && Apply(o, s, step) == Some(t)
    requires SawAt(made, seen, j, PhaseOf(s, j)) && SeenAt(s.db, seen, j, PhaseOf(s, j))
    ensures SawAt(made + MadeBy(s, step, seen), seen + SeenBy(s, step), j, PhaseOf(t, j))
  {
    if step.InsertChunks? && step.j != j && HasSnapshot(PhaseOf(s, j)) {
      assert PhaseOf(s, j).snapshot != PhaseOf(s, step.j).snapshot;
    }
  }

  lemma {:induction false} SawAtAlways(o: Oracle, steps: seq<Step>, s: State, j: JobId)
    requires InjectiveHash(o) && ModelCheckedRun(o, steps) && Run(o, steps) == Some(s)
    ensures SawAt(AllMade(o, steps), AllSeen(o, steps), j, PhaseOf(s, j))
  {
    if steps != [] {
      var init := steps[..|steps| - 1];
      var before := Run(o, init).value;
      SawAtAlways(o, init, before, j);
      InvHolds(o, init);
      SeenAtAlways(o, init, before, j);
      SawAtStep(o, before, steps[|steps| - 1], s, AllMade(o, init), AllSeen(o, init), j);
    }
  }

  /** Step k is the job's last look, and found `seen`. */
  ghost predicate LastLook(o: Oracle, steps: seq<Step>, j: JobId, k: nat, seen: Option<Id>) {
    && k < |steps| && steps[k] == SeeActive(j) && (forall i | k < i < |steps| :: steps[i] != SeeActive(j))
    && Run(o, steps[..k]).Some?
    && var s := Run(o, steps[..k]).value;
       && PhaseOf(s, j).Started?
       && var space := PhaseOf(s, j).task.space;
          seen == if space in s.db.active then Some(s.db.active[space]) else None
  }

  lemma LaterLook(o: Oracle, steps: seq<Step>, j: JobId, k: nat, seen: Option<Id>)
    requires steps != [] && steps[|steps| - 1] != SeeActive(j)
    requires LastLook(o, steps[..|steps| - 1], j, k, seen)
    ensures LastLook(o, steps, j, k, seen)
  {
    var init := steps[..|steps| - 1];
    assert init[..k] == steps[..k];
    forall i | k < i < |steps| ensures steps[i] != SeeActive(j) {
      assert i < |init| ==> init[i] == steps[i];
    }
  }

  lemma LooksNow(o: Oracle, steps: seq<Step>, j: JobId)
    requires steps != [] && steps[|steps| - 1] == SeeActive(j) && Run(o, steps).Some?
    ensures j in AllSeen(o, steps) && LastLook(o, steps, j, |steps| - 1, AllSeen(o, steps)[j])
  {
  }

  lemma SeenBefore(o: Oracle, steps: seq<Step>, j: JobId)
    requires steps != [] && steps[|steps| - 1] != SeeActive(j) && Run(o, steps).Some?
    ensures j in AllSeen(o, steps) <==> j in AllSeen(o, steps[..|steps| - 1])
    ensures j in AllSeen(o, steps) ==> AllSeen(o, steps)[j] == AllSeen(o, steps[..|steps| - 1])[j]
  {
  }

  /** What a job has seen is what its space's pointer said at the job's last look. */
  lemma {:induction false} SeenWhenItLooked(o: Oracle, steps: seq<Step>, j: JobId) returns (k: nat)
    requires Run(o, steps).Some? && j in AllSeen(o, steps)
    ensures LastLook(o, steps, j, k, AllSeen(o, steps)[j])
  {
    if steps[|steps| - 1] == SeeActive(j) {
      k := |steps| - 1;
      LooksNow(o, steps, j);
    } else {
      SeenBefore(o, steps, j);
      k := SeenWhenItLooked(o, steps[..|steps| - 1], j);
      LaterLook(o, steps, j, k, AllSeen(o, steps)[j]);
    }
  }

  lemma MadePieces(o: Oracle, steps: seq<Step>, s: State, id: Id, piece: (PageId, nat, string))
    requires InjectiveHash(o) && ModelCheckedRun(o, steps) && Run(o, steps) == Some(s) && id in AllMade(o, steps)
    ensures PieceCount(s.db, id, piece) == WantedCount(s.db, AllMade(o, steps)[id], piece)
    ensures SeenLive(s.db, AllMade(o, steps)[id].seen, AllMade(o, steps)[id].task.space)
  {
    var m := AllMade(o, steps)[id];
    MadeContains(o, steps, s, id);
    MadeFromAlways(o, steps, s, id);
    ContainedCount(s.db, id, Wanted(m), m.firstId, piece);
    WantedIs(s.db, m, piece);
  }

  lemma ActivationKeepsChunks(o: Oracle, s: State, j: JobId, t: State)
    requires PhaseOf(s, j).Embedded? && Apply(o, s, Step.ActivateSnapshot(j)) == Some(t)
    ensures t.db.chunks == s.db.chunks && PhaseOf(s, j).task.space in t.db.active
    ensures t.db.active[PhaseOf(s, j).task.space] == PhaseOf(s, j).snapshot
    ensures forall id, piece :: PieceCount(t.db, id, piece) == PieceCount(s.db, id, piece)
  {
  }

  /**
    In every run, once a rebuild has been activated its space's active snapshot has the pieces of the
    job's pages, each as often as they have it, and no other piece.
   */
  lemma RebuildActivatesItsPages(
      o: Oracle, steps: seq<Step>, s: State, j: JobId, t: State, pages: seq<Page>, piece: (PageId, nat, string))
    requires InjectiveHash(o) && ModelCheckedRun(o, steps) && Run(o, steps) == Some(s) && PhaseOf(s, j).Embedded?
    requires Apply(o, s, Step.ActivateSnapshot(j)) == Some(t) && PhaseOf(s, j).task.scope == Rebuild(pages)
    ensures var space := PhaseOf(s, j).task.space;
      space in t.db.active && PieceCount(t.db, t.db.active[space], piece) == PagesPieces(pages, piece)
  {
    var id := PhaseOf(s, j).snapshot;
    ActivatedHasTheTasksPieces(o, steps, s, j);
    MadePieces(o, steps, s, id, piece);
    ActivationKeepsChunks(o, s, j, t);
  }

  /**
    And once a single-page job has been activated, the active snapshot has the pieces of that page
    and, of all other pages, exactly those of the snapshot that was active when the job looked:
    none if there was none.
   */
  lemma SinglePageKeepsTheOthers(
      o: Oracle, steps: seq<Step>, s: State, j: JobId, t: State, target: Page, piece: (PageId, nat, string))
    requires InjectiveHash(o) && ModelCheckedRun(o, steps) && Run(o, steps) == Some(s) && PhaseOf(s, j).Embedded?
    requires Apply(o, s, Step.ActivateSnapshot(j)) == Some(t) && PhaseOf(s, j).task.scope == SinglePage(target)
    ensures var space := PhaseOf(s, j).task.space;
      && space in t.db.active && j in AllSeen(o, steps) && SeenLive(s.db, AllSeen(o, steps)[j], space)
      && PieceCount(t.db, t.db.active[space], piece) ==
        if piece.0 == target.id
        then if piece.1 < |target.contents| && piece.2 == target.contents[piece.1] then 1 else 0
        else
          match AllSeen(o, steps)[j]
          case None => 0
          case Some(previous) => PieceCount(t.db, previous, piece)
  {
    var id := PhaseOf(s, j).snapshot;
    ActivatedHasTheTasksPieces(o, steps, s, j);
    SawAtAlways(o, steps, s, j);
    MadePieces(o, steps, s, id, piece);
    ActivationKeepsChunks(o, s, j, t);
  }

  /**
    After any run, a space's active snapshot has the pieces of the job that made it, in terms of the
    tables as they are now.
   */
  lemma ActivePieces(o: Oracle, steps: seq<Step>, s: State, space: SpaceId, piece: (PageId, nat, string))
    requires InjectiveHash(o) && ModelCheckedRun(o, steps) && Run(o, steps) == Some(s) && space in s.db.active
    ensures var id, made := s.db.active[space], AllMade(o, steps);
      && id in made && made[id].task.space == space
      && SeenLive(s.db, made[id].seen, space)
      && PieceCount(s.db, id, piece) == WantedCount(s.db, made[id], piece)
  {
    ActiveSnapshotHasThePieces(o, steps, s, space);
    MadePieces(o, steps, s, s.db.active[space], piece);
  }
}
