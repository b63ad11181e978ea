/** Which chunks a space's active snapshot has after a whole run of interleaved indexing jobs. */
module IndexContents {
  import opened Options
  import opened Snapshots
  import opened IndexPlans
  import opened IndexRuns

  // ---- History ----

  /** The snapshot that is active for the job's space, if any, when the job looks for it. */
  function SeenBy(s: State, step: Step): map<JobId, Option<Id>> {
    if step.SeeActive? && PhaseOf(s, step.j).Started? then
      var space := PhaseOf(s, step.j).task.space;
      map[step.j := if space in s.db.active then Some(s.db.active[space]) else None]
    else map[]
  }

  /** What each job found when it last looked. */
  function AllSeen(o: Oracle, steps: seq<Step>): map<JobId, Option<Id>> {
    if steps == [] then map[]
    else
      var init := steps[..|steps| - 1];
      var before := Run(o, init);
      AllSeen(o, init) + if before.Some? then SeenBy(before.value, steps[|steps| - 1]) else map[]
  }

  /** What a job inserted the chunks of a snapshot from, the snapshot it had found, and the first chunk's id. */
  datatype Made = Made(task: Task, rows: seq<PreviousRow>, seen: Option<Id>, firstId: Id)

  function PlansOf(o: Oracle, m: Made, snapshot: Id): seq<Plan> {
    PlansFor(o, m.task, m.rows, snapshot, m.firstId)
  }

  function MadeBy(s: State, step: Step, seen: map<JobId, Option<Id>>): map<Id, Made> {
    if step.InsertChunks? && PhaseOf(s, step.j).Created? then
      var p := PhaseOf(s, step.j);
      map[p.snapshot := Made(p.task, p.rows, if step.j in seen then seen[step.j] else None, s.db.nextId)]
    else map[]
  }

  /** For every snapshot that was given chunks, what they were made from. */
  function AllMade(o: Oracle, steps: seq<Step>): map<Id, Made> {
    if steps == [] then map[]
    else
      var init := steps[..|steps| - 1];
      var before := Run(o, init);
      AllMade(o, init)
      + if before.Some? then MadeBy(before.value, steps[|steps| - 1], AllSeen(o, init)) else map[]
  }

  // ---- What every step keeps, chunk by chunk ----

  /** Chunk c belongs to the snapshot exactly when it is one of the plan, and then is what was planned. */
  predicate HoldsAt(db: Db, snapshot: Id, plans: seq<Plan>, firstId: Id, c: Id) {
    && (c in db.chunks && db.chunks[c].snapshot == snapshot <==> Among(plans, firstId, c))
    && (Among(plans, firstId, c) ==> db.chunks[c] == plans[c - firstId].chunk)
  }

  predicate MadeAt(o: Oracle, db: Db, made: map<Id, Made>, id: Id, c: Id) {
    id in made ==>
      && id in db.snapshots && db.snapshots[id].space == made[id].task.space
      && db.snapshots[id].model == made[id].task.model
      && HoldsAt(db, id, PlansOf(o, made[id], id), made[id].firstId, c)
  }

  /** A job that has inserted its chunks goes on with the plan recorded for its snapshot. */
  predicate JobAt(o: Oracle, made: map<Id, Made>, p: Phase) {
    p.Inserted? || p.Embedded? ==>
      && p.snapshot in made && made[p.snapshot].task == p.task && made[p.snapshot].firstId == p.firstId
      && PlansOf(o, made[p.snapshot], p.snapshot) == p.plans
  }

  predicate LiveAt(db: Db, made: map<Id, Made>, id: Id) {
    id in db.snapshots && Live(db.snapshots[id]) ==> id in made
  }

  lemma AddedHolds(db: Db, db': Db, snapshot: Id, plans: seq<Plan>, c: Id)
    requires db'.chunks == AddChunks(db.chunks, plans, db.nextId) && Numbered(plans, snapshot, db.nextId)
    requires c in db.chunks ==> c < db.nextId && db.chunks[c].snapshot != snapshot
    ensures HoldsAt(db', snapshot, plans, db.nextId, c)
  {
    AddedChunk(db.chunks, plans, db.nextId, c);
  }

  lemma OthersHold(
      db: Db, db': Db, snapshot: Id, plans: seq<Plan>, id: Id, idPlans: seq<Plan>, firstId: Id, c: Id)
    requires db'.chunks == AddChunks(db.chunks, plans, db.nextId) && Numbered(plans, snapshot, db.nextId)
    requires id != snapshot && HoldsAt(db, id, idPlans, firstId, c) && (c in db.chunks ==> c < db.nextId)
    ensures HoldsAt(db', id, idPlans, firstId, c)
  {
    AddedChunk(db.chunks, plans, db.nextId, c);
  }

  lemma InsertedAt(
      o: Oracle, s: State, j: JobId, made: map<Id, Made>, seen: map<JobId, Option<Id>>, id: Id, c: Id)
    requires InjectiveHash(o) && Inv(o, s) && PhaseOf(s, j).Created? && ModelsMatch(s, InsertChunks(j))
    requires MadeAt(o, s.db, made, id, c)
    ensures MadeAt(o, Apply(o, s, InsertChunks(j)).value.db, made + MadeBy(s, InsertChunks(j), seen), id, c)
  {
    var p, db' := PhaseOf(s, j), Apply(o, s, InsertChunks(j)).value.db;
    var plans := PlansFor(o, p.task, p.rows, p.snapshot, s.db.nextId);
    assert PhaseFits(o, s.db, p);
    PlansAreSound(o, s, j);
    if id == p.snapshot {
      AddedHolds(s.db, db', id, plans, c);
    } else if id in made {
      OthersHold(s.db, db', p.snapshot, plans, id, PlansOf(o, made[id], id), made[id].firstId, c);
    }
  }

  lemma MadeAtStep(
      o: Oracle, s: State, step: Step, made: map<Id, Made>, seen: map<JobId, Option<Id>>, id: Id, c: Id)
    requires InjectiveHash(o) && Inv(o, s) && Apply(o, s, step).Some? && ModelsMatch(s, step)
    requires MadeAt(o, s.db, made, id, c)
    ensures MadeAt(o, Apply(o, s, step).value.db, made + MadeBy(s, step, seen), id, c)
  {
    if step.InsertChunks? { InsertedAt(o, s, step.j, made, seen, id, c); }
  }

  lemma {:induction false} MadeAtAlways(o: Oracle, steps: seq<Step>, id: Id, c: Id)
    requires InjectiveHash(o) && ModelCheckedRun(o, steps)
    ensures MadeAt(o, Run(o, steps).value.db, AllMade(o, steps), id, c)
  {
    if steps != [] {
      var init := steps[..|steps| - 1];
      MadeAtAlways(o, init, id, c);
      InvHolds(o, init);
      MadeAtStep(o, Run(o, init).value, steps[|steps| - 1], AllMade(o, init), AllSeen(o, init), id, c);
    }
  }

  lemma JobAtStep(
      o: Oracle, s: State, step: Step, made: map<Id, Made>, seen: map<JobId, Option<Id>>, j: JobId)
    requires Inv(o, s) && Apply(o, s, step).Some? && JobAt(o, made, PhaseOf(s, j))
    ensures JobAt(o, made + MadeBy(s, step, seen), PhaseOf(Apply(o, s, step).value, j))
  {
    if step.InsertChunks? && step.j != j && HasSnapshot(PhaseOf(s, j)) {
      assert PhaseOf(s, j).snapshot != PhaseOf(s, step.j).snapshot;
    }
  }

  lemma {:induction false} JobAtAlways(o: Oracle, steps: seq<Step>, j: JobId)
    requires InjectiveHash(o) && ModelCheckedRun(o, steps)
    ensures JobAt(o, AllMade(o, steps), PhaseOf(Run(o, steps).value, j))
  {
    if steps != [] {
      var init := steps[..|steps| - 1];
      JobAtAlways(o, init, j);
      InvHolds(o, init);
      JobAtStep(o, Run(o, init).value, steps[|steps| - 1], AllMade(o, init), AllSeen(o, init), j);
    }
  }

  lemma LiveAtStep(
      o: Oracle, s: State, step: Step, made: map<Id, Made>, seen: map<JobId, Option<Id>>, id: Id)
    requires Apply(o, s, step).Some? && LiveAt(s.db, made, id)
    requires step.ActivateSnapshot? ==> JobAt(o, made, PhaseOf(s, step.j))
    ensures LiveAt(Apply(o, s, step).value.db, made + MadeBy(s, step, seen), id)
  {
  }

  lemma {:induction false} LiveAtAlways(o: Oracle, steps: seq<Step>, id: Id)
    requires InjectiveHash(o) && ModelCheckedRun(o, steps)
    ensures LiveAt(Run(o, steps).value.db, AllMade(o, steps), id)
  {
    if steps != [] {
      var init, step := steps[..|steps| - 1], steps[|steps| - 1];
      LiveAtAlways(o, init, id);
      if step.ActivateSnapshot? { JobAtAlways(o, init, step.j); }
      LiveAtStep(o, Run(o, init).value, step, AllMade(o, init), AllSeen(o, init), id);
    }
  }

  // ---- The active snapshot ----

  /** The pieces a job sets out to index: all pages, or the other pages' previous pieces and the target's new ones. */
  function Wanted(m: Made): seq<(PageId, nat, string)> {
    match m.task.scope
    case Rebuild(pages) => AllPlaces(pages)
    case SinglePage(target) => OtherPlaces(m.rows, target.id) + PagePlaces(target)
  }

  lemma PlansCoverTheWanted(o: Oracle, m: Made, snapshot: Id)
    ensures Places(PlansOf(o, m, snapshot)) == Wanted(m)
  {
    match m.task.scope
    case Rebuild(pages) =>
      RebuildCoversThePages(o, snapshot, m.task.model, pages, PreviousByPosition(m.rows, m.task.model), m.firstId);
    case SinglePage(target) =>
      SinglePageCovers(o, snapshot, m.task.model, target, m.rows, m.firstId);
  }

  /** The snapshot's chunks are numbered from firstId and sit, one by one, at the places. */
  ghost predicate Contains(db: Db, snapshot: Id, places: seq<(PageId, nat, string)>, firstId: Id) {
    && (forall c: Id :: c in db.chunks && db.chunks[c].snapshot == snapshot <==> firstId <= c < firstId + |places|)
    && (forall c: Id | c in db.chunks && db.chunks[c].snapshot == snapshot && firstId <= c < firstId + |places| ::
          Place(db.chunks[c]) == places[c - firstId])
  }

  lemma HoldingIsContaining(db: Db, snapshot: Id, plans: seq<Plan>, firstId: Id)
    requires forall c: Id :: HoldsAt(db, snapshot, plans, firstId, c)
    ensures Contains(db, snapshot, Places(plans), firstId)
  {
    forall c: Id ensures c in db.chunks && db.chunks[c].snapshot == snapshot <==> Among(plans, firstId, c) {
      assert HoldsAt(db, snapshot, plans, firstId, c);
    }
    forall c: Id | c in db.chunks && db.chunks[c].snapshot == snapshot && firstId <= c < firstId + |plans|
      ensures Place(db.chunks[c]) == Places(plans)[c - firstId]
    {
      assert HoldsAt(db, snapshot, plans, firstId, c);
    }
  }

  /** What a job activates in any run has the pieces of that job's own task. */
  lemma ActivatedHasTheTasksPieces(o: Oracle, steps: seq<Step>, s: State, j: JobId)
    requires InjectiveHash(o) && ModelCheckedRun(o, steps) && Run(o, steps) == Some(s) && PhaseOf(s, j).Embedded?
    ensures var p, made := PhaseOf(s, j), AllMade(o, steps);
      p.snapshot in made && made[p.snapshot].task == p.task &&
      Contains(s.db, p.snapshot, Wanted(made[p.snapshot]), p.firstId)
  {
    JobAtAlways(o, steps, j);
    MadeContains(o, steps, s, PhaseOf(s, j).snapshot);
  }

  lemma MadeContains(o: Oracle, steps: seq<Step>, s: State, id: Id)
    requires InjectiveHash(o) && ModelCheckedRun(o, steps) && Run(o, steps) == Some(s) && id in AllMade(o, steps)
    ensures var made := AllMade(o, steps);
      && id in s.db.snapshots && s.db.snapshots[id].space == made[id].task.space
      && Contains(s.db, id, Wanted(made[id]), made[id].firstId)
  {
    var made := AllMade(o, steps);
    forall c: Id ensures HoldsAt(s.db, id, PlansOf(o, made[id], id), made[id].firstId, c) {
      MadeAtAlways(o, steps, id, c);
    }
    MadeAtAlways(o, steps, id, 0);
    PlansCoverTheWanted(o, made[id], id);
    HoldingIsContaining(s.db, id, PlansOf(o, made[id], id), made[id].firstId);
  }

  /**
    After any run, a space's active snapshot was made for that space by a job whose pieces it has,
    each once, and no other chunk.
   */
  lemma ActiveSnapshotHasThePieces(o: Oracle, steps: seq<Step>, s: State, space: SpaceId)
    requires InjectiveHash(o) && ModelCheckedRun(o, steps) && Run(o, steps) == Some(s) && space in s.db.active
    ensures var id, made := s.db.active[space], AllMade(o, steps);
      && id in made && made[id].task.space == space
      && Contains(s.db, id, Wanted(made[id]), made[id].firstId)
  {
    InvHolds(o, steps);
    LiveAtAlways(o, steps, s.db.active[space]);
    MadeContains(o, steps, s, s.db.active[space]);
  }
}
