/** The index snapshot rows of a space and its active pointer (apps/indexer-worker/src/snapshot-manager.ts). */
module Snapshots {
  import opened Options

  type SpaceId = string
  type ModelId = string
  type Id = nat   // generated ids: fresh and never reused

  const STALE_BUILDING_SNAPSHOT_MS: int := 2 * 60 * 60 * 1000

  datatype Status = Building | Activated | Superseded | Failed
  datatype Snapshot = Snapshot(space: SpaceId, model: ModelId, status: Status, createdAt: int, chunkCount: nat)

  type Table = map<Id, Snapshot>

  /** The snapshots after the activating transaction. */
  function Activate(t: Table, id: Id, space: SpaceId, chunkCount: nat): Table {
    map s | s in t ::
      if s == id then t[s].(status := Activated, chunkCount := chunkCount)
      else if t[s].space == space && t[s].status == Activated then t[s].(status := Superseded)
      else t[s]
  }

  function MarkFailed(t: Table, id: Id): Table {
    if id in t then t[id := t[id].(status := Failed)] else t
  }

  predicate IsBuilding(t: Table, id: Id, space: SpaceId) {
    id in t && t[id].space == space && t[id].status == Building
  }

  predicate IsStale(s: Snapshot, now: int) { now - s.createdAt > STALE_BUILDING_SNAPSHOT_MS }

  /** Each space's pointer names its only activated snapshot. */
  ghost predicate PointersAreExact(t: Table, active: map<SpaceId, Id>) {
    && (forall space | space in active :: active[space] in t && t[active[space]].space == space)
    && (forall id | id in t :: t[id].status == Activated <==> t[id].space in active && active[t[id].space] == id)
  }

  lemma ActivateKeepsPointersExact(t: Table, active: map<SpaceId, Id>, id: Id, space: SpaceId, chunkCount: nat)
    requires PointersAreExact(t, active) && id in t && t[id].space == space
    ensures PointersAreExact(Activate(t, id, space, chunkCount), active[space := id])
  {
  }

  /** Marking a snapshot failed keeps the pointers exact if and only if it is not the active one. */
  lemma MarkFailedKeepsPointersExact(t: Table, active: map<SpaceId, Id>, id: Id)
    requires PointersAreExact(t, active) && id in t
    ensures PointersAreExact(MarkFailed(t, id), active) <==> t[id].status != Activated
  {
  }

  class SnapshotManager {
    var snapshots: Table
    var active: map<SpaceId, Id>

    ghost predicate Valid()
      reads this
    {
      PointersAreExact(snapshots, active)
    }

    constructor ()
      ensures Valid() && snapshots == map[] && active == map[]
    {
      snapshots, active := map[], map[];
    }

    method CreateSnapshot(id: Id, space: SpaceId, model: ModelId, now: int) returns (s: Snapshot)
      requires Valid() && id !in snapshots
      modifies this`snapshots
      ensures Valid() && snapshots == old(snapshots)[id := s]
      ensures s == Snapshot(space, model, Building, now, 0)
    {
      s := Snapshot(space, model, Building, now, 0);
      assert forall sp | sp in active :: active[sp] != id;
      snapshots := snapshots[id := s];
    }

    method ActivateSnapshot(id: Id, space: SpaceId, chunkCount: nat)
      requires Valid() && id in snapshots && snapshots[id].space == space
      modifies this
      ensures Valid()
      ensures snapshots == Activate(old(snapshots), id, space, chunkCount) && active == old(active)[space := id]
      ensures snapshots.Keys == old(snapshots).Keys
      ensures snapshots[id] == old(snapshots)[id].(status := Activated, chunkCount := chunkCount)
      ensures forall s | s in snapshots && s != id ::
        snapshots[s] ==
          if old(snapshots)[s].space == space && old(snapshots)[s].status == Activated
          then old(snapshots)[s].(status := Superseded) else old(snapshots)[s]
    {
      ActivateKeepsPointersExact(snapshots, active, id, space, chunkCount);
      ghost var after := Activate(snapshots, id, space, chunkCount);
      snapshots := snapshots[id := snapshots[id].(status := Activated, chunkCount := chunkCount)];
      active := active[space := id];
      snapshots := map s | s in snapshots ::
        if snapshots[s].space == space && snapshots[s].status == Activated && s != id
        then snapshots[s].(status := Superseded) else snapshots[s];
      assert snapshots == after;
    }

    /** True when a building snapshot is recent; a stale one found by the query is marked failed. */
    method CheckBuildingExists(space: SpaceId, now: int) returns (busy: bool, recovered: Option<Id>)
      requires Valid()
      modifies this`snapshots
      ensures Valid()
      ensures busy ==> exists id :: IsBuilding(old(snapshots), id, space) && !IsStale(old(snapshots)[id], now)
      ensures recovered.Some? ==> !busy && IsBuilding(old(snapshots), recovered.value, space)
      ensures recovered.Some? ==> IsStale(old(snapshots)[recovered.value], now)
      ensures snapshots == if recovered.Some? then MarkFailed(old(snapshots), recovered.value) else old(snapshots)
      ensures recovered.Some? ==>
        var was := old(snapshots)[recovered.value];
        && now - was.createdAt > 7_200_000
        && snapshots == old(snapshots)[recovered.value := was.(status := Failed)]
      ensures busy ==> exists id ::
        IsBuilding(old(snapshots), id, space) && now - old(snapshots)[id].createdAt <= 7_200_000
      ensures (exists id :: IsBuilding(old(snapshots), id, space)) <==> busy || recovered.Some?
    {
      var candidates := set id | id in snapshots && IsBuilding(snapshots, id, space);
      if candidates == {} {
        assert forall id :: IsBuilding(snapshots, id, space) ==> id in candidates;
        return false, None;
      }
      var id :| id in candidates;
      if now - snapshots[id].createdAt <= STALE_BUILDING_SNAPSHOT_MS {
        return true, None;
      }
      MarkFailedKeepsPointersExact(snapshots, active, id);
      snapshots := snapshots[id := snapshots[id].(status := Failed)];
      return false, Some(id);
    }

    /** Unconditional, as in the source: harmless exactly when the snapshot is not the active one. */
    method MarkSnapshotFailed(id: Id)
      requires Valid()
      modifies this`snapshots
      ensures snapshots == MarkFailed(old(snapshots), id)
      ensures snapshots ==
        if id in old(snapshots) then old(snapshots)[id := old(snapshots)[id].(status := Failed)] else old(snapshots)
      ensures Valid() <==> !(id in old(snapshots) && old(snapshots)[id].status == Activated)
    {
      if id in snapshots {
        MarkFailedKeepsPointersExact(snapshots, active, id);
        snapshots := snapshots[id := snapshots[id].(status := Failed)];
      }
    }
  }
}
