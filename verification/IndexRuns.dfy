/**
  Whole runs of interleaved indexing jobs over one set of tables. Every database statement
  of IndexerWorker.process is a step; jobs may fail or crash anywhere, and a building
  snapshot may be recovered as failed at any time.
 */
module IndexRuns {
  import opened Options
  import opened Snapshots
  import opened IndexPlans

  type JobId = string

  datatype Scope = Rebuild(pages: seq<Page>) | SinglePage(target: Page)
  datatype Task = Task(space: SpaceId, model: ModelId, scope: Scope)

  datatype Phase =
    | Idle
    | Started(task: Task)
    | SawActive(task: Task, active: Option<Id>)
    | Loaded(task: Task, rows: seq<PreviousRow>)
    | Created(task: Task, rows: seq<PreviousRow>, snapshot: Id)
    | Inserted(task: Task, snapshot: Id, plans: seq<Plan>, firstId: Id)
    | Embedded(task: Task, snapshot: Id, plans: seq<Plan>, firstId: Id)

  datatype Db = Db(
    snapshots: Table, active: map<SpaceId, Id>, chunks: map<Id, Chunk>, rows: seq<Embedding>, nextId: Id)

  datatype State = State(db: Db, jobs: map<JobId, Phase>)

  datatype Step =
    | Start(j: JobId, task: Task)
    | SeeActive(j: JobId)
    | Load(j: JobId, order: seq<Id>)       // the order the query returns the chunks in
    | Create(j: JobId, now: int)
    | InsertChunks(j: JobId)
    | InsertEmbeddings(j: JobId)
    | ActivateSnapshot(j: JobId)
    | Fail(j: JobId)                       // an error before activation, handled
    | Crash(j: JobId)
    | Recover(id: Id)                      // a stale building snapshot marked failed

  const EMPTY := State(Db(map[], map[], map[], [], 0), map[])

  function PhaseOf(s: State, j: JobId): Phase { if j in s.jobs then s.jobs[j] else Idle }

  function ChunksOf(db: Db, snapshot: Id): set<Id> { set c | c in db.chunks && db.chunks[c].snapshot == snapshot }

  /** The left join of chunks with their vectors. */
  function LeftJoin(db: Db, order: seq<Id>): seq<PreviousRow>
    requires forall c | c in order :: c in db.chunks
  {
    if order == [] then []
    else
      var c := order[|order| - 1];
      var vectors := VectorsOf(db.rows, c);
      LeftJoin(db, order[..|order| - 1])
      + if vectors == [] then [PreviousRow(db.chunks[c], None)]
        else seq(|vectors|, i requires 0 <= i < |vectors| => PreviousRow(db.chunks[c], Some(vectors[i])))
  }

  function PlansFor(o: Oracle, task: Task, rows: seq<PreviousRow>, snapshot: Id, firstId: Id): seq<Plan> {
    match task.scope
    case Rebuild(pages) =>
      PlanPages(o, snapshot, task.model, pages, PreviousByPosition(rows, task.model), firstId)
    case SinglePage(target) => PlanSinglePage(o, snapshot, task.model, target, rows, firstId)
  }

  function AddChunks(chunks: map<Id, Chunk>, plans: seq<Plan>, firstId: Id): map<Id, Chunk> {
    chunks + map c: Id | firstId <= c < firstId + |plans| && Among(plans, firstId, c) :: plans[c - firstId].chunk
  }

  predicate Distinct(order: seq<Id>) { forall i, k | 0 <= i < k < |order| :: order[i] != order[k] }

  /** Each of the chunks once. */
  predicate Enumerates(order: seq<Id>, chunks: set<Id>)
    ensures Enumerates(order, chunks) ==> forall c | c in order :: c in chunks
  {
    assert forall c | c in order :: c in (set d | d in order);
    (set c | c in order) == chunks && Distinct(order)
  }

  function Apply(o: Oracle, s: State, step: Step): Option<State> {
    var db := s.db;
    match step
    case Start(j, task) =>
      if PhaseOf(s, j).Idle? then Some(s.(jobs := s.jobs[j := Started(task)])) else None
    case SeeActive(j) =>
      var p := PhaseOf(s, j);
      if !p.Started? then None
      else
        var active := if p.task.space in db.active then Some(db.active[p.task.space]) else None;
        Some(s.(jobs := s.jobs[j := SawActive(p.task, active)]))
    case Load(j, order) =>
      var p := PhaseOf(s, j);
      if !p.SawActive? || !Enumerates(order, if p.active.Some? then ChunksOf(db, p.active.value) else {})
      then None
      else Some(s.(jobs := s.jobs[j := Loaded(p.task, LeftJoin(db, order))]))
    case Create(j, now) =>
      var p := PhaseOf(s, j);
      if !p.Loaded? then None
      else
        var snapshot := Snapshot(p.task.space, p.task.model, Building, now, 0);
        Some(State(db.(snapshots := db.snapshots[db.nextId := snapshot], nextId := db.nextId + 1),
                   s.jobs[j := Created(p.task, p.rows, db.nextId)]))
    case InsertChunks(j) =>
      var p := PhaseOf(s, j);
      if !p.Created? then None
      else
        var plans := PlansFor(o, p.task, p.rows, p.snapshot, db.nextId);
        Some(State(db.(chunks := AddChunks(db.chunks, plans, db.nextId), nextId := db.nextId + |plans|),
                   s.jobs[j := Inserted(p.task, p.snapshot, plans, db.nextId)]))
    case InsertEmbeddings(j) =>
      var p := PhaseOf(s, j);
      if !p.Inserted? then None
      else Some(State(db.(rows := db.rows + EmbeddingRows(o, p.plans, p.task.model)),
                      s.jobs[j := Embedded(p.task, p.snapshot, p.plans, p.firstId)]))
    case ActivateSnapshot(j) =>
      var p := PhaseOf(s, j);
      if !p.Embedded? then None
      else Some(State(db.(snapshots := Activate(db.snapshots, p.snapshot, p.task.space, |p.plans|),
                          active := db.active[p.task.space := p.snapshot]),
                      s.jobs[j := Idle]))
    case Fail(j) =>
      var p := PhaseOf(s, j);
      var hasSnapshot := p.Created? || p.Inserted? || p.Embedded?;
      Some(State(if hasSnapshot then db.(snapshots := MarkFailed(db.snapshots, p.snapshot)) else db, s.jobs[j := Idle]))
    case Crash(j) => Some(s.(jobs := s.jobs[j := Idle]))
    case Recover(id) =>
      if id in db.snapshots && db.snapshots[id].status == Building
      then Some(s.(db := db.(snapshots := MarkFailed(db.snapshots, id)))) else None
  }

  function Run(o: Oracle, steps: seq<Step>): Option<State> {
    if steps == [] then Some(EMPTY)
    else
      var before := Run(o, steps[..|steps| - 1]);
      if before.None? then None else Apply(o, before.value, steps[|steps| - 1])
  }

  /** A single-page job copies vectors only from rows made with its own model. */
  ghost predicate ModelsMatch(s: State, step: Step) {
    step.InsertChunks? && PhaseOf(s, step.j).Created? && PhaseOf(s, step.j).task.scope.SinglePage? ==>
      var p := PhaseOf(s, step.j);
      CopiesMatch(p.rows, p.task.scope.target.id, p.task.model)
  }

  ghost predicate ModelCheckedRun(o: Oracle, steps: seq<Step>) {
    && Run(o, steps).Some?
    && (steps != [] ==>
          ModelCheckedRun(o, steps[..|steps| - 1])
          && ModelsMatch(Run(o, steps[..|steps| - 1]).value, steps[|steps| - 1]))
  }

  // ---- The invariant ----

  ghost predicate ExactChunk(o: Oracle, db: Db, c: Id, model: ModelId)
    requires c in db.chunks
  {
    && db.chunks[c].hash == o.hash(db.chunks[c].content)
    && db.chunks[c].model == model
    && VectorsOf(db.rows, c) == [o.embed(model, db.chunks[c].content)]
  }

  /** Every chunk of the snapshot has exactly one vector, the one embedding its content gives. */
  ghost predicate Exact(o: Oracle, db: Db, snapshot: Id)
    requires snapshot in db.snapshots
  {
    forall c | c in db.chunks && db.chunks[c].snapshot == snapshot ::
      ExactChunk(o, db, c, db.snapshots[snapshot].model)
  }

  predicate Live(s: Snapshot) { s.status == Activated || s.status == Superseded }

  ghost predicate TablesFit(db: Db) {
    && (forall id | id in db.snapshots :: id < db.nextId)
    && (forall c | c in db.chunks :: c < db.nextId && db.chunks[c].snapshot in db.snapshots)
    && (forall c :: VectorsOf(db.rows, c) != [] ==> c in db.chunks)
  }

  ghost predicate Owns(db: Db, task: Task, snapshot: Id) {
    snapshot in db.snapshots && !Live(db.snapshots[snapshot])
    && db.snapshots[snapshot].space == task.space && db.snapshots[snapshot].model == task.model
  }

  ghost predicate HasInserted(o: Oracle, db: Db, task: Task, snapshot: Id, plans: seq<Plan>, firstId: Id) {
    && SoundPlans(o, task.model, plans) && Numbered(plans, snapshot, firstId)
    && (forall c :: Among(plans, firstId, c) <==> c in db.chunks && db.chunks[c].snapshot == snapshot)
    && (forall i | 0 <= i < |plans| :: firstId + i in db.chunks && db.chunks[firstId + i] == plans[i].chunk)
  }

  ghost predicate PhaseFits(o: Oracle, db: Db, p: Phase) {
    match p
    case Idle => true
    case Started(_) => true
    case SawActive(_, active) =>
      active.Some? ==> active.value in db.snapshots && Live(db.snapshots[active.value])
    case Loaded(_, rows) => SoundRows(o, rows)
    case Created(task, rows, snapshot) =>
      SoundRows(o, rows) && Owns(db, task, snapshot) && forall c | c in db.chunks :: db.chunks[c].snapshot != snapshot
    case Inserted(task, snapshot, plans, firstId) =>
      && Owns(db, task, snapshot) && HasInserted(o, db, task, snapshot, plans, firstId)
      && forall c | Among(plans, firstId, c) :: VectorsOf(db.rows, c) == []
    case Embedded(task, snapshot, plans, firstId) =>
      Owns(db, task, snapshot) && HasInserted(o, db, task, snapshot, plans, firstId) && Exact(o, db, snapshot)
  }

  predicate HasSnapshot(p: Phase) { p.Created? || p.Inserted? || p.Embedded? }

  ghost predicate LiveAreExact(o: Oracle, db: Db) {
    forall id | id in db.snapshots && Live(db.snapshots[id]) :: Exact(o, db, id)
  }

  ghost predicate JobsFit(o: Oracle, s: State) { forall j :: PhaseFits(o, s.db, PhaseOf(s, j)) }

  ghost predicate SnapshotsAreOwnedOnce(s: State) {
    forall i, j | i != j && HasSnapshot(PhaseOf(s, i)) && HasSnapshot(PhaseOf(s, j)) ::
      PhaseOf(s, i).snapshot != PhaseOf(s, j).snapshot
  }

  ghost predicate Inv(o: Oracle, s: State) {
    && PointersAreExact(s.db.snapshots, s.db.active)
    && TablesFit(s.db)
    && LiveAreExact(o, s.db)
    && JobsFit(o, s)
    && SnapshotsAreOwnedOnce(s)
  }

  // ---- Each kind of step keeps it ----

  /** Steps that move one job and leave the tables alone. */
  lemma MoveJob(o: Oracle, s: State, j: JobId, p: Phase)
    requires Inv(o, s) && PhaseFits(o, s.db, p)
    requires HasSnapshot(p) ==> HasSnapshot(PhaseOf(s, j)) && PhaseOf(s, j).snapshot == p.snapshot
    ensures Inv(o, s.(jobs := s.jobs[j := p]))
  {
    var t := s.(jobs := s.jobs[j := p]);
    assert forall i :: PhaseOf(t, i) == if i == j then p else PhaseOf(s, i);
  }

  lemma {:induction false} LeftJoinIsSound(o: Oracle, db: Db, snapshot: Id, order: seq<Id>)
    requires snapshot in db.snapshots && Exact(o, db, snapshot)
    requires forall c | c in order :: c in db.chunks && db.chunks[c].snapshot == snapshot
    ensures SoundRows(o, LeftJoin(db, order))
  {
    if order != [] {
      LeftJoinIsSound(o, db, snapshot, order[..|order| - 1]);
      assert ExactChunk(o, db, order[|order| - 1], db.snapshots[snapshot].model);
    }
  }

  lemma ExactFrame(o: Oracle, db: Db, db': Db, id: Id)
    requires id in db.snapshots && id in db'.snapshots && db'.snapshots[id].model == db.snapshots[id].model
    requires forall c | c in db'.chunks && db'.chunks[c].snapshot == id ::
      c in db.chunks && db'.chunks[c] == db.chunks[c]
    requires forall c | c in db.chunks && db.chunks[c].snapshot == id :: VectorsOf(db'.rows, c) == VectorsOf(db.rows, c)
    requires Exact(o, db, id)
    ensures Exact(o, db', id)
  {
    forall c | c in db'.chunks && db'.chunks[c].snapshot == id ensures ExactChunk(o, db', c, db'.snapshots[id].model) {
      assert ExactChunk(o, db, c, db.snapshots[id].model);
    }
  }

  /** The second table keeps every snapshot's space and model, and its life. */
  ghost predicate Extends(t: Table, t': Table) {
    forall id | id in t ::
      id in t' && t'[id].space == t[id].space && t'[id].model == t[id].model && (Live(t[id]) ==> Live(t'[id]))
  }

  /** Changing snapshot rows only: a phase still fits if the job's own snapshot does not come to life. */
  lemma SnapshotsOnly(o: Oracle, db: Db, db': Db, p: Phase)
    requires PhaseFits(o, db, p) && db'.chunks == db.chunks && db'.rows == db.rows
    requires Extends(db.snapshots, db'.snapshots)
    requires HasSnapshot(p) && p.snapshot in db'.snapshots ==> !Live(db'.snapshots[p.snapshot])
    ensures PhaseFits(o, db', p)
  {
    if p.Embedded? { ExactFrame(o, db, db', p.snapshot); }
  }

  lemma CreateKeepsInv(o: Oracle, s: State, j: JobId, now: int)
    requires Inv(o, s) && PhaseOf(s, j).Loaded?
    ensures Inv(o, Apply(o, s, Create(j, now)).value)
  {
    var t := Apply(o, s, Create(j, now)).value;
    forall i ensures PhaseFits(o, t.db, PhaseOf(t, i)) {
      assert PhaseFits(o, s.db, PhaseOf(s, i));
      if i != j { SnapshotsOnly(o, s.db, t.db, PhaseOf(s, i)); }
    }
    forall id | id in t.db.snapshots && Live(t.db.snapshots[id]) ensures Exact(o, t.db, id) {
      ExactFrame(o, s.db, t.db, id);
    }
    forall i | HasSnapshot(PhaseOf(s, i)) ensures PhaseOf(s, i).snapshot < s.db.nextId {
      assert PhaseFits(o, s.db, PhaseOf(s, i));
    }
    assert forall i :: PhaseOf(t, i) == if i == j then PhaseOf(t, j) else PhaseOf(s, i);
  }

  lemma PlansAreSound(o: Oracle, s: State, j: JobId)
    requires InjectiveHash(o) && PhaseOf(s, j).Created? && ModelsMatch(s, InsertChunks(j))
    requires SoundRows(o, PhaseOf(s, j).rows)
    ensures var p := PhaseOf(s, j);
      var plans := PlansFor(o, p.task, p.rows, p.snapshot, s.db.nextId);
      SoundPlans(o, p.task.model, plans) && Numbered(plans, p.snapshot, s.db.nextId)
  {
    var p := PhaseOf(s, j);
    match p.task.scope
    case Rebuild(pages) =>
      PlanPagesIsSound(o, p.snapshot, p.task.model, pages, p.rows, s.db.nextId);
      PlanPagesIsNumbered(o, p.snapshot, p.task.model, pages, PreviousByPosition(p.rows, p.task.model), s.db.nextId);
    case SinglePage(target) =>
      SinglePageIsSound(o, p.snapshot, p.task.model, target, p.rows, s.db.nextId);
      SinglePageIsNumbered(o, p.snapshot, p.task.model, target, p.rows, s.db.nextId);
  }

  /** New chunks of one snapshot do not disturb a job that owns another. */
  lemma ChunksAdded(o: Oracle, db: Db, db': Db, plans: seq<Plan>, snapshot: Id, p: Phase)
    requires TablesFit(db) && PhaseFits(o, db, p) && Numbered(plans, snapshot, db.nextId)
    requires HasSnapshot(p) ==> p.snapshot != snapshot
    requires db' == db.(chunks := AddChunks(db.chunks, plans, db.nextId), nextId := db.nextId + |plans|)
    ensures PhaseFits(o, db', p)
  {
    if p.Embedded? { ExactFrame(o, db, db', p.snapshot); }
  }

  lemma AddedChunk(chunks: map<Id, Chunk>, plans: seq<Plan>, firstId: Id, c: Id)
    ensures c in AddChunks(chunks, plans, firstId) <==> c in chunks || Among(plans, firstId, c)
    ensures Among(plans, firstId, c) ==> AddChunks(chunks, plans, firstId)[c] == plans[c - firstId].chunk
    ensures c in chunks && !Among(plans, firstId, c) ==> AddChunks(chunks, plans, firstId)[c] == chunks[c]
  {
  }

  lemma InsertedTablesFit(db: Db, db': Db, snapshot: Id, plans: seq<Plan>)
    requires TablesFit(db) && snapshot in db.snapshots && Numbered(plans, snapshot, db.nextId)
    requires db' == db.(chunks := AddChunks(db.chunks, plans, db.nextId), nextId := db.nextId + |plans|)
    ensures TablesFit(db')
  {
    forall c | c in db'.chunks ensures c < db'.nextId && db'.chunks[c].snapshot in db'.snapshots {
      AddedChunk(db.chunks, plans, db.nextId, c);
    }
    forall c | VectorsOf(db'.rows, c) != [] ensures c in db'.chunks {
      AddedChunk(db.chunks, plans, db.nextId, c);
    }
  }

  lemma InsertedChunksAre(o: Oracle, db: Db, db': Db, task: Task, snapshot: Id, plans: seq<Plan>)
    requires TablesFit(db) && forall c | c in db.chunks :: db.chunks[c].snapshot != snapshot
    requires SoundPlans(o, task.model, plans) && Numbered(plans, snapshot, db.nextId)
    requires db' == db.(chunks := AddChunks(db.chunks, plans, db.nextId), nextId := db.nextId + |plans|)
    ensures HasInserted(o, db', task, snapshot, plans, db.nextId)
  {
    forall c ensures Among(plans, db.nextId, c) <==> c in db'.chunks && db'.chunks[c].snapshot == snapshot {
      AddedChunk(db.chunks, plans, db.nextId, c);
    }
    forall i | 0 <= i < |plans|
      ensures db.nextId + i in db'.chunks && db'.chunks[db.nextId + i] == plans[i].chunk
    {
      AddedChunk(db.chunks, plans, db.nextId, db.nextId + i);
    }
  }

  lemma NewChunksHaveNoVectors(db: Db, plans: seq<Plan>)
    requires TablesFit(db)
    ensures forall c | Among(plans, db.nextId, c) :: VectorsOf(db.rows, c) == []
  {
    forall c | Among(plans, db.nextId, c) ensures VectorsOf(db.rows, c) == [] { assert c !in db.chunks; }
  }

  lemma InsertedFits(o: Oracle, db: Db, db': Db, task: Task, snapshot: Id, plans: seq<Plan>)
    requires TablesFit(db) && Owns(db, task, snapshot) && forall c | c in db.chunks :: db.chunks[c].snapshot != snapshot
    requires SoundPlans(o, task.model, plans) && Numbered(plans, snapshot, db.nextId)
    requires db' == db.(chunks := AddChunks(db.chunks, plans, db.nextId), nextId := db.nextId + |plans|)
    ensures TablesFit(db') && PhaseFits(o, db', Inserted(task, snapshot, plans, db.nextId))
  {
    InsertedTablesFit(db, db', snapshot, plans);
    InsertedChunksAre(o, db, db', task, snapshot, plans);
    NewChunksHaveNoVectors(db, plans);
  }

  lemma InsertChunksKeepsInv(o: Oracle, s: State, j: JobId)
    requires InjectiveHash(o) && Inv(o, s) && PhaseOf(s, j).Created? && ModelsMatch(s, InsertChunks(j))
    ensures Inv(o, Apply(o, s, InsertChunks(j)).value)
  {
    var p := PhaseOf(s, j);
    var t := Apply(o, s, InsertChunks(j)).value;
    var plans := PlansFor(o, p.task, p.rows, p.snapshot, s.db.nextId);
    assert PhaseFits(o, s.db, p);
    PlansAreSound(o, s, j);
    InsertedFits(o, s.db, t.db, p.task, p.snapshot, plans);
    forall i ensures PhaseFits(o, t.db, PhaseOf(t, i)) {
      assert PhaseFits(o, s.db, PhaseOf(s, i));
      if i != j { ChunksAdded(o, s.db, t.db, plans, p.snapshot, PhaseOf(s, i)); }
    }
    forall id | id in t.db.snapshots && Live(t.db.snapshots[id]) ensures Exact(o, t.db, id) {
      ExactFrame(o, s.db, t.db, id);
    }
    assert forall i :: PhaseOf(t, i) == if i == j then PhaseOf(t, j) else PhaseOf(s, i);
  }

  lemma RowsAdded(o: Oracle, db: Db, db': Db, snapshot: Id, p: Phase)
    requires PhaseFits(o, db, p) && db' == db.(rows := db'.rows)
    requires forall c | c in db.chunks && db.chunks[c].snapshot != snapshot ::
      VectorsOf(db'.rows, c) == VectorsOf(db.rows, c)
    requires HasSnapshot(p) ==> p.snapshot != snapshot
    ensures PhaseFits(o, db', p)
  {
    if p.Embedded? { ExactFrame(o, db, db', p.snapshot); }
  }

  lemma VectorsAfter(
      o: Oracle, db: Db, db': Db, task: Task, snapshot: Id, plans: seq<Plan>, firstId: Id, c: Id)
    requires HasInserted(o, db, task, snapshot, plans, firstId)
    requires db' == db.(rows := db.rows + EmbeddingRows(o, plans, task.model))
    ensures VectorsOf(db'.rows, c) == VectorsOf(db.rows, c)
      + if Among(plans, firstId, c) then [o.embed(task.model, plans[c - firstId].chunk.content)] else []
  {
    VectorsOfConcat(db.rows, EmbeddingRows(o, plans, task.model), c);
    OneVectorEach(o, plans, task.model, snapshot, firstId, c);
  }

  lemma OnlyVector(
      o: Oracle, db: Db, db': Db, task: Task, snapshot: Id, plans: seq<Plan>, firstId: Id, c: Id)
    requires HasInserted(o, db, task, snapshot, plans, firstId)
    requires db' == db.(rows := db.rows + EmbeddingRows(o, plans, task.model))
    requires Among(plans, firstId, c) && VectorsOf(db.rows, c) == []
    ensures c in db'.chunks && ExactChunk(o, db', c, task.model)
  {
    VectorsAfter(o, db, db', task, snapshot, plans, firstId, c);
    assert SoundPlan(o, task.model, plans[c - firstId]);
    assert db.chunks[firstId + (c - firstId)] == plans[c - firstId].chunk;
  }

  /** Inserting the embedding rows gives each planned chunk its vector and touches no other. */
  lemma EmbeddedFits(o: Oracle, db: Db, db': Db, task: Task, snapshot: Id, plans: seq<Plan>, firstId: Id)
    requires TablesFit(db) && PhaseFits(o, db, Inserted(task, snapshot, plans, firstId))
    requires db' == db.(rows := db.rows + EmbeddingRows(o, plans, task.model))
    ensures PhaseFits(o, db', Embedded(task, snapshot, plans, firstId)) && TablesFit(db')
    ensures forall c | c in db.chunks && db.chunks[c].snapshot != snapshot ::
      VectorsOf(db'.rows, c) == VectorsOf(db.rows, c)
  {
    EmbeddedIsExact(o, db, db', task, snapshot, plans, firstId);
    EmbeddedTablesFit(o, db, db', task, snapshot, plans, firstId);
  }

  lemma EmbeddedIsExact(o: Oracle, db: Db, db': Db, task: Task, snapshot: Id, plans: seq<Plan>, firstId: Id)
    requires PhaseFits(o, db, Inserted(task, snapshot, plans, firstId))
    requires db' == db.(rows := db.rows + EmbeddingRows(o, plans, task.model))
    ensures Exact(o, db', snapshot)
  {
    forall c | c in db'.chunks && db'.chunks[c].snapshot == snapshot ensures ExactChunk(o, db', c, task.model) {
      assert Among(plans, firstId, c);
      OnlyVector(o, db, db', task, snapshot, plans, firstId, c);
    }
  }

  lemma EmbeddedTablesFit(o: Oracle, db: Db, db': Db, task: Task, snapshot: Id, plans: seq<Plan>, firstId: Id)
    requires TablesFit(db) && HasInserted(o, db, task, snapshot, plans, firstId)
    requires db' == db.(rows := db.rows + EmbeddingRows(o, plans, task.model))
    ensures TablesFit(db')
    ensures forall c | c in db.chunks && db.chunks[c].snapshot != snapshot ::
      VectorsOf(db'.rows, c) == VectorsOf(db.rows, c)
  {
    forall c | VectorsOf(db'.rows, c) != [] ensures c in db'.chunks {
      VectorsAfter(o, db, db', task, snapshot, plans, firstId, c);
    }
    forall c | c in db.chunks && db.chunks[c].snapshot != snapshot
      ensures VectorsOf(db'.rows, c) == VectorsOf(db.rows, c)
    {
      VectorsAfter(o, db, db', task, snapshot, plans, firstId, c);
      assert VectorsOf(db.rows, c) + [] == VectorsOf(db.rows, c);
    }
  }

  lemma InsertEmbeddingsKeepsInv(o: Oracle, s: State, j: JobId)
    requires Inv(o, s) && PhaseOf(s, j).Inserted?
    ensures Inv(o, Apply(o, s, InsertEmbeddings(j)).value)
  {
    var p := PhaseOf(s, j);
    var t := Apply(o, s, InsertEmbeddings(j)).value;
    assert PhaseFits(o, s.db, p);
    EmbeddedFits(o, s.db, t.db, p.task, p.snapshot, p.plans, p.firstId);
    forall i ensures PhaseFits(o, t.db, PhaseOf(t, i)) {
      assert PhaseFits(o, s.db, PhaseOf(s, i));
      if i != j { RowsAdded(o, s.db, t.db, p.snapshot, PhaseOf(s, i)); }
    }
    forall id | id in t.db.snapshots && Live(t.db.snapshots[id]) ensures Exact(o, t.db, id) {
      ExactFrame(o, s.db, t.db, id);
    }
    assert forall i :: PhaseOf(t, i) == if i == j then PhaseOf(t, j) else PhaseOf(s, i);
  }

  lemma ActivateKeepsJobs(o: Oracle, s: State, t: State, j: JobId)
    requires Inv(o, s) && PhaseOf(s, j).Embedded? && t == Apply(o, s, Step.ActivateSnapshot(j)).value
    ensures JobsFit(o, t)
  {
    forall i ensures PhaseFits(o, t.db, PhaseOf(t, i)) {
      assert PhaseFits(o, s.db, PhaseOf(s, i));
      if i != j { SnapshotsOnly(o, s.db, t.db, PhaseOf(s, i)); }
    }
  }

  lemma ActivateKeepsExact(o: Oracle, s: State, t: State, j: JobId)
    requires Inv(o, s) && PhaseOf(s, j).Embedded? && t == Apply(o, s, Step.ActivateSnapshot(j)).value
    ensures LiveAreExact(o, t.db)
  {
    assert PhaseFits(o, s.db, PhaseOf(s, j));
    forall id | id in t.db.snapshots && Live(t.db.snapshots[id]) ensures Exact(o, t.db, id) {
      ExactFrame(o, s.db, t.db, id);
    }
  }

  lemma ActivateKeepsInv(o: Oracle, s: State, j: JobId)
    requires Inv(o, s) && PhaseOf(s, j).Embedded?
    ensures Inv(o, Apply(o, s, Step.ActivateSnapshot(j)).value)
  {
    var p := PhaseOf(s, j);
    var t := Apply(o, s, Step.ActivateSnapshot(j)).value;
    assert PhaseFits(o, s.db, p);
    ActivateKeepsPointersExact(s.db.snapshots, s.db.active, p.snapshot, p.task.space, |p.plans|);
    ActivateKeepsJobs(o, s, t, j);
    ActivateKeepsExact(o, s, t, j);
    assert forall i :: PhaseOf(t, i) == if i == j then Idle else PhaseOf(s, i);
  }

  /** Failing a snapshot that is not live. */
  lemma FailKeepsInv(o: Oracle, s: State, id: Id)
    requires Inv(o, s) && id in s.db.snapshots && !Live(s.db.snapshots[id])
    ensures Inv(o, s.(db := s.db.(snapshots := MarkFailed(s.db.snapshots, id))))
  {
    var t := s.(db := s.db.(snapshots := MarkFailed(s.db.snapshots, id)));
    MarkFailedKeepsPointersExact(s.db.snapshots, s.db.active, id);
    forall i ensures PhaseFits(o, t.db, PhaseOf(t, i)) {
      assert PhaseFits(o, s.db, PhaseOf(s, i));
      SnapshotsOnly(o, s.db, t.db, PhaseOf(s, i));
    }
    forall id' | id' in t.db.snapshots && Live(t.db.snapshots[id']) ensures Exact(o, t.db, id') {
      ExactFrame(o, s.db, t.db, id');
    }
    assert forall i :: PhaseOf(t, i) == PhaseOf(s, i);
  }

  lemma StepKeepsInv(o: Oracle, s: State, step: Step)
    requires InjectiveHash(o) && Inv(o, s) && Apply(o, s, step).Some? && ModelsMatch(s, step)
    ensures Inv(o, Apply(o, s, step).value)
  {
    match step
    case Start(j, task) => MoveJob(o, s, j, Started(task));
    case SeeActive(j) =>
      MoveJob(o, s, j, PhaseOf(Apply(o, s, step).value, j));
    case Load(j, order) =>
      var p := PhaseOf(s, j);
      assert PhaseFits(o, s.db, p);
      if p.active.Some? { LeftJoinIsSound(o, s.db, p.active.value, order); }
      MoveJob(o, s, j, PhaseOf(Apply(o, s, step).value, j));
    case Create(j, now) => CreateKeepsInv(o, s, j, now);
    case InsertChunks(j) => InsertChunksKeepsInv(o, s, j);
    case InsertEmbeddings(j) => InsertEmbeddingsKeepsInv(o, s, j);
    case ActivateSnapshot(j) => ActivateKeepsInv(o, s, j);
    case Fail(j) =>
      var p := PhaseOf(s, j);
      assert PhaseFits(o, s.db, p);
      if HasSnapshot(p) {
        FailKeepsInv(o, s, p.snapshot);
        MoveJob(o, s.(db := s.db.(snapshots := MarkFailed(s.db.snapshots, p.snapshot))), j, Idle);
      } else {
        MoveJob(o, s, j, Idle);
      }
    case Crash(j) => MoveJob(o, s, j, Idle);
    case Recover(id) => FailKeepsInv(o, s, id);
  }

  lemma {:induction false} InvHolds(o: Oracle, steps: seq<Step>)
    requires InjectiveHash(o) && ModelCheckedRun(o, steps)
    ensures Inv(o, Run(o, steps).value)
  {
    if steps != [] {
      var init := steps[..|steps| - 1];
      InvHolds(o, init);
      StepKeepsInv(o, Run(o, init).value, steps[|steps| - 1]);
    }
  }

  /**
    After any run, a space's pointer names its only activated snapshot, and each chunk of it
    has exactly one vector: the one its content gives under the snapshot's model.
   */
  lemma ActiveSnapshotsAreExact(o: Oracle, steps: seq<Step>, space: SpaceId)
    requires InjectiveHash(o) && ModelCheckedRun(o, steps)
    ensures var db := Run(o, steps).value.db;
      && (forall id | id in db.snapshots && db.snapshots[id].space == space ::
            db.snapshots[id].status == Activated <==> space in db.active && db.active[space] == id)
      && (space in db.active ==>
            && db.active[space] in db.snapshots
            && forall c | c in db.chunks && db.chunks[c].snapshot == db.active[space] ::
                 VectorsOf(db.rows, c) == [o.embed(db.snapshots[db.active[space]].model, db.chunks[c].content)])
  {
    InvHolds(o, steps);
    var db := Run(o, steps).value.db;
    if space in db.active {
      assert Exact(o, db, db.active[space]);
      forall c | c in db.chunks && db.chunks[c].snapshot == db.active[space]
        ensures VectorsOf(db.rows, c) == [o.embed(db.snapshots[db.active[space]].model, db.chunks[c].content)]
      {
        assert ExactChunk(o, db, c, db.snapshots[db.active[space]].model);
      }
    }
  }

  // ---- An activation whose commit is not seen ----

  /**
    In every reachable state, recording a snapshot as failed although its activation was committed
    keeps every pointer exact if and only if a later activation has already superseded it.
   */
  lemma LateFailureIsHarmlessIff(o: Oracle, steps: seq<Step>, id: Id)
    requires InjectiveHash(o) && ModelCheckedRun(o, steps) && id in Run(o, steps).value.db.snapshots
    ensures var db := Run(o, steps).value.db;
      PointersAreExact(MarkFailed(db.snapshots, id), db.active) <==> db.snapshots[id].status != Activated
  {
    InvHolds(o, steps);
    var db := Run(o, steps).value.db;
    MarkFailedKeepsPointersExact(db.snapshots, db.active, id);
  }

  /** So recording it right after the commit always leaves the space pointing to a failed snapshot. */
  lemma UnseenCommitBreaksThePointer(o: Oracle, steps: seq<Step>, s: State, j: JobId)
    requires InjectiveHash(o) && ModelCheckedRun(o, steps) && Run(o, steps) == Some(s) && PhaseOf(s, j).Embedded?
    ensures var p := PhaseOf(s, j);
      var db := Apply(o, s, Step.ActivateSnapshot(j)).value.db;
      var failed := MarkFailed(db.snapshots, p.snapshot);
      && p.task.space in db.active && db.active[p.task.space] == p.snapshot
      && p.snapshot in failed && failed[p.snapshot].status == Failed && !PointersAreExact(failed, db.active)
  {
    InvHolds(o, steps);
    var p := PhaseOf(s, j);
    assert PhaseFits(o, s.db, p);
    ActivatedThenFailed(s.db.snapshots, s.db.active, p.snapshot, p.task.space, |p.plans|);
  }

  lemma ActivatedThenFailed(t: Table, active: map<SpaceId, Id>, id: Id, space: SpaceId, chunkCount: nat)
    requires PointersAreExact(t, active) && id in t && t[id].space == space
    ensures var failed := MarkFailed(Activate(t, id, space, chunkCount), id);
      id in failed && failed[id].status == Failed && !PointersAreExact(failed, active[space := id])
  {
    ActivateKeepsPointersExact(t, active, id, space, chunkCount);
    MarkFailedKeepsPointersExact(Activate(t, id, space, chunkCount), active[space := id], id);
  }

  // ---- Jobs can go on ----

  /** Every set of chunks can be listed. */
  lemma {:induction false} SomeOrder(chunks: set<Id>) returns (order: seq<Id>)
    ensures Enumerates(order, chunks)
  {
    if chunks == {} {
      order := [];
    } else {
      var c :| c in chunks;
      var rest := SomeOrder(chunks - {c});
      assert (set e | e in rest) == chunks - {c};
      order := rest + [c];
      forall d ensures d in order <==> d in chunks {
        assert d in order <==> d in rest || d == c;
        assert d in rest <==> d in (set e | e in rest);
        assert d in chunks <==> d in chunks - {c} || d == c;
      }
      assert (set d | d in order) == chunks;
    }
  }

  /** Looking and loading: any job that has started can take these steps, and they change no table. */
  lemma JobsCanLoad(o: Oracle, s: State, j: JobId, task: Task)
    ensures PhaseOf(s, j).Idle? ==> Apply(o, s, Start(j, task)) == Some(State(s.db, s.jobs[j := Started(task)]))
    ensures PhaseOf(s, j).Started? ==>
      var space := PhaseOf(s, j).task.space;
      var active := if space in s.db.active then Some(s.db.active[space]) else None;
      Apply(o, s, SeeActive(j)) == Some(State(s.db, s.jobs[j := SawActive(PhaseOf(s, j).task, active)]))
    ensures PhaseOf(s, j).SawActive? ==> exists order, rows ::
      Apply(o, s, Load(j, order)) == Some(State(s.db, s.jobs[j := Loaded(PhaseOf(s, j).task, rows)]))
  {
    if PhaseOf(s, j).SawActive? {
      var p := PhaseOf(s, j);
      var order := SomeOrder(if p.active.Some? then ChunksOf(s.db, p.active.value) else {});
      assert Apply(o, s, Load(j, order)) == Some(State(s.db, s.jobs[j := Loaded(p.task, LeftJoin(s.db, order))]));
    }
  }

  /** So can any job that has loaded: it creates a new snapshot, fills it and activates it. */
  lemma JobsCanFinish(o: Oracle, s: State, j: JobId, now: int)
    ensures PhaseOf(s, j).Loaded? ==>
      var p := PhaseOf(s, j);
      && Apply(o, s, Create(j, now)).Some?
      && var t := Apply(o, s, Create(j, now)).value;
         && PhaseOf(t, j) == Created(p.task, p.rows, s.db.nextId)
         && t.db.snapshots == s.db.snapshots[s.db.nextId := Snapshot(p.task.space, p.task.model, Building, now, 0)]
    ensures PhaseOf(s, j).Created? ==>
      && Apply(o, s, InsertChunks(j)).Some?
      && var q := PhaseOf(Apply(o, s, InsertChunks(j)).value, j);
         q.Inserted? && q.task == PhaseOf(s, j).task && q.snapshot == PhaseOf(s, j).snapshot
    ensures PhaseOf(s, j).Inserted? ==>
      && Apply(o, s, InsertEmbeddings(j)).Some?
      && var p, q := PhaseOf(s, j), PhaseOf(Apply(o, s, InsertEmbeddings(j)).value, j);
         q == Embedded(p.task, p.snapshot, p.plans, p.firstId)
    ensures PhaseOf(s, j).Embedded? && PhaseOf(s, j).snapshot in s.db.snapshots ==>
      && Apply(o, s, Step.ActivateSnapshot(j)).Some?
      && var p, t := PhaseOf(s, j), Apply(o, s, Step.ActivateSnapshot(j)).value;
         && PhaseOf(t, j).Idle? && t.db.active == s.db.active[p.task.space := p.snapshot]
         && p.snapshot in t.db.snapshots && t.db.snapshots[p.snapshot].status == Activated
         && t.db.snapshots[p.snapshot].chunkCount == |p.plans|
  {
  }

  /** A handled error fails the job's snapshot, if it has one, and a recovery one that is building; no other changes. */
  lemma FailuresMarkOneSnapshot(o: Oracle, s: State, j: JobId, id: Id)
    ensures Apply(o, s, Fail(j)).Some? && PhaseOf(Apply(o, s, Fail(j)).value, j).Idle?
    ensures var p, t := PhaseOf(s, j), Apply(o, s, Fail(j)).value;
      && t.db.snapshots.Keys == s.db.snapshots.Keys && t.db.active == s.db.active
      && forall other | other in s.db.snapshots ::
           t.db.snapshots[other] ==
             if (p.Created? || p.Inserted? || p.Embedded?) && other == p.snapshot
             then s.db.snapshots[other].(status := Failed) else s.db.snapshots[other]
    ensures Apply(o, s, Recover(id)).Some? <==> id in s.db.snapshots && s.db.snapshots[id].status == Building
    ensures Apply(o, s, Recover(id)).Some? ==>
      var t := Apply(o, s, Recover(id)).value;
      t.db.snapshots == s.db.snapshots[id := s.db.snapshots[id].(status := Failed)] && t.jobs == s.jobs
  {
  }
}
