/** export/instance.py: per-instance world boxes and matrices, grown in
    parallel tables by the instance cache. */
module InstanceExport {
  import opened Vector
  import opened Blender

  /** Each bound-box corner mapped to world space by the matrix. */
  function TransformCorners(m: Mat4, corners: seq<Vec3>): (world: seq<Vec3>)
    ensures |world| == |corners|
    ensures forall i :: 0 <= i < |corners| ==> world[i] == TransformPoint(m, corners[i])
  {
    seq(|corners|, i requires 0 <= i < |corners| => TransformPoint(m, corners[i]))
  }

  /** `min(axis=0)`: the componentwise minimum of the points. */
  function MinCorner(pts: seq<Vec3>): (r: Vec3)
    requires |pts| > 0
    ensures forall i :: 0 <= i < |pts| ==> Le3(r, pts[i])
    ensures (exists i :: 0 <= i < |pts| && r.x == pts[i].x) && (exists i :: 0 <= i < |pts| && r.y == pts[i].y) &&
            (exists i :: 0 <= i < |pts| && r.z == pts[i].z)
  {
    if |pts| == 1 then pts[0]
    else
      var rest := MinCorner(pts[1..]);
      assert forall i :: 1 <= i < |pts| ==> pts[i] == pts[1..][i - 1];
      Min3(pts[0], rest)
  }

  /** `max(axis=0)`: the componentwise maximum of the points. */
  function MaxCorner(pts: seq<Vec3>): (r: Vec3)
    requires |pts| > 0
    ensures forall i :: 0 <= i < |pts| ==> Le3(pts[i], r)
    ensures (exists i :: 0 <= i < |pts| && r.x == pts[i].x) && (exists i :: 0 <= i < |pts| && r.y == pts[i].y) &&
            (exists i :: 0 <= i < |pts| && r.z == pts[i].z)
  {
    if |pts| == 1 then pts[0]
    else
      var rest := MaxCorner(pts[1..]);
      assert forall i :: 1 <= i < |pts| ==> pts[i] == pts[1..][i - 1];
      Max3(pts[0], rest)
  }

  /** What `export_instance` returns. */
  datatype ExportedInstance = ExportedInstance(boxMin: Vec3, boxMax: Vec3, worldToObj: Mat4, objToWorld: Mat4)

  /** `export_instance`: the world-space box of the object's bound-box
      corners, the inverse world matrix and the world matrix. The matrix
      inverse is numpy's and is passed in as `inv`. */
  function ExportInstance(inst: ObjectInstance, inv: Mat4 -> Mat4): (e: ExportedInstance)
    requires |inst.obj.boundBox| > 0
    ensures Le3(e.boxMin, e.boxMax)
    ensures forall i :: 0 <= i < |inst.obj.boundBox| ==>
      Le3(e.boxMin, TransformPoint(inst.matrixWorld, inst.obj.boundBox[i])) &&
      Le3(TransformPoint(inst.matrixWorld, inst.obj.boundBox[i]), e.boxMax)
    ensures e.worldToObj == inv(inst.matrixWorld) && e.objToWorld == inst.matrixWorld
  {
    var world := TransformCorners(inst.matrixWorld, inst.obj.boundBox);
    var lo := MinCorner(world);
    var hi := MaxCorner(world);
    assert Le3(lo, world[0]) && Le3(world[0], hi);
    ExportedInstance(lo, hi, inv(inst.matrixWorld), inst.matrixWorld)
  }

  /** The box is the tightest one: each face touches some corner. */
  lemma ExportInstanceTight(inst: ObjectInstance, inv: Mat4 -> Mat4)
    requires |inst.obj.boundBox| > 0
    ensures var e := ExportInstance(inst, inv);
            var world := TransformCorners(inst.matrixWorld, inst.obj.boundBox);
            (exists i :: 0 <= i < |world| && e.boxMin.x == world[i].x) &&
            (exists i :: 0 <= i < |world| && e.boxMax.x == world[i].x) &&
            (exists i :: 0 <= i < |world| && e.boxMin.y == world[i].y) &&
            (exists i :: 0 <= i < |world| && e.boxMax.y == world[i].y) &&
            (exists i :: 0 <= i < |world| && e.boxMin.z == world[i].z) &&
            (exists i :: 0 <= i < |world| && e.boxMax.z == world[i].z)
  {
    var world := TransformCorners(inst.matrixWorld, inst.obj.boundBox);
    var e := ExportInstance(inst, inv);
    assert e.boxMin == MinCorner(world) && e.boxMax == MaxCorner(world);
  }

  /** A mesh id stored in a numpy uint8 array, as numpy releases before
      2.0 store it: an id of 256 or more wraps modulo 256. */
  function StoredMeshId(meshId: nat): (r: nat)
    ensures r < 256 && (meshId < 256 ==> r == meshId)
  {
    meshId % 256
  }

  /** The instance tables run in parallel, one entry per added instance:
      its box is well formed, its mesh id fits a uint8 and its obj_to_world
      is its world matrix. */
  ghost predicate Tables(n: nat, boxMin: seq<Vec3>, boxMax: seq<Vec3>, worldToObj: seq<Mat4>, objToWorld: seq<Mat4>,
                         meshId: seq<nat>, instances: seq<ObjectInstance>)
  {
    |boxMin| == n && |boxMax| == n && |worldToObj| == n && |objToWorld| == n && |meshId| == n && |instances| == n &&
    (forall i :: 0 <= i < n ==> meshId[i] < 256) &&
    (forall i :: 0 <= i < n ==> objToWorld[i] == instances[i].matrixWorld) &&
    (forall i :: 0 <= i < n ==> Le3(boxMin[i], boxMax[i]))
  }

  /** Appending an exported instance's entry keeps the tables parallel. */
  lemma TablesAppend(n: nat, boxMin: seq<Vec3>, boxMax: seq<Vec3>, worldToObj: seq<Mat4>, objToWorld: seq<Mat4>,
                     meshId: seq<nat>, instances: seq<ObjectInstance>, inst: ObjectInstance, e: ExportedInstance, id: nat)
    requires Tables(n, boxMin, boxMax, worldToObj, objToWorld, meshId, instances)
    requires Le3(e.boxMin, e.boxMax) && e.objToWorld == inst.matrixWorld && id < 256
    ensures Tables(n + 1, boxMin + [e.boxMin], boxMax + [e.boxMax], worldToObj + [e.worldToObj],
                   objToWorld + [e.objToWorld], meshId + [id], instances + [inst])
  {
  }

  /** Each world_to_obj entry is the inverse, under inv, of its
      instance's world matrix: what `add` stores there. */
  ghost predicate StoresInverses(worldToObj: seq<Mat4>, instances: seq<ObjectInstance>, inv: Mat4 -> Mat4)
  {
    |worldToObj| == |instances| &&
    forall i :: 0 <= i < |instances| ==> worldToObj[i] == inv(instances[i].matrixWorld)
  }

  /** The entry `add` appends (world_to_obj = inv of the world matrix, by
      ExportInstance) keeps every world_to_obj entry the inverse of its
      instance's world matrix. */
  lemma StoresInversesAppend(worldToObj: seq<Mat4>, instances: seq<ObjectInstance>, inv: Mat4 -> Mat4, inst: ObjectInstance)
    requires StoresInverses(worldToObj, instances, inv)
    ensures StoresInverses(worldToObj + [inv(inst.matrixWorld)], instances + [inst], inv)
  {
  }

  class InstanceCache {
    var instanceCount: nat
    var boxMin: seq<Vec3>
    var boxMax: seq<Vec3>
    var worldToObj: seq<Mat4>
    var objToWorld: seq<Mat4>
    var meshId: seq<nat>
    /** The instances added so far. */
    ghost var instances: seq<ObjectInstance>

    /** The tables, one entry per added instance, as Tables describes them. */
    ghost predicate Valid()
      reads this
    {
      Tables(instanceCount, boxMin, boxMax, worldToObj, objToWorld, meshId, instances)
    }

    constructor()
      ensures Valid() && instanceCount == 0 && instances == []
      ensures boxMin == [] && boxMax == [] && worldToObj == [] && objToWorld == [] && meshId == []
    {
      instanceCount := 0;
      boxMin, boxMax, worldToObj, objToWorld, meshId := [], [], [], [], [];
      instances := [];
    }

    /** `add`: export the instance and append its entry to every table. */
    method Add(inst: ObjectInstance, id: nat, inv: Mat4 -> Mat4)
      requires Valid() && |inst.obj.boundBox| > 0
      modifies this
      ensures Valid()
      ensures instanceCount == old(instanceCount) + 1 && instances == old(instances) + [inst]
      ensures var e := ExportInstance(inst, inv);
        boxMin == old(boxMin) + [e.boxMin] && boxMax == old(boxMax) + [e.boxMax] &&
        worldToObj == old(worldToObj) + [e.worldToObj] && objToWorld == old(objToWorld) + [e.objToWorld] &&
        meshId == old(meshId) + [StoredMeshId(id)]
    {
      var e := ExportInstance(inst, inv);
      TablesAppend(instanceCount, boxMin, boxMax, worldToObj, objToWorld, meshId, instances, inst, e, StoredMeshId(id));
      if instanceCount == 0 {
        assert boxMin == [] && boxMax == [] && worldToObj == [] && objToWorld == [] && meshId == [];
        boxMin, boxMax := [e.boxMin], [e.boxMax];
        worldToObj, objToWorld := [e.worldToObj], [e.objToWorld];
        meshId := [StoredMeshId(id)];
      } else {
        boxMin, boxMax := boxMin + [e.boxMin], boxMax + [e.boxMax];
        worldToObj, objToWorld := worldToObj + [e.worldToObj], objToWorld + [e.objToWorld];
        meshId := meshId + [StoredMeshId(id)];
      }
      instances := instances + [inst];
      instanceCount := instanceCount + 1;
    }

    /** `commit`, corrected: the numpy re-casts change no value over the
        reals, so every table keeps its contents and obj_to_world still
        holds each instance's world matrix. Before the first `add` the
        tables do not exist and the source raises AttributeError: ok is
        false exactly then. */
    method Commit() returns (ok: bool)
      requires Valid()
      modifies this
      ensures Valid()
      ensures ok <==> instanceCount > 0
      ensures instanceCount == old(instanceCount) && instances == old(instances)
      ensures boxMin == old(boxMin) && boxMax == old(boxMax) && worldToObj == old(worldToObj) &&
              objToWorld == old(objToWorld) && meshId == old(meshId)
    {
      if instanceCount == 0 {
        return false;
      }
      ok := true;
      boxMin := boxMin;
      boxMax := boxMax;
      worldToObj := worldToObj;
      objToWorld := objToWorld;
      meshId := meshId;
    }
  }

  /** `commit` as written: the new obj_to_world table is a copy of the
      world_to_obj table. */
  function CommitObjToWorldAsWritten(worldToObj: seq<Mat4>, objToWorld: seq<Mat4>): (r: seq<Mat4>)
    requires |worldToObj| == |objToWorld|
    ensures |r| == |objToWorld|
    ensures forall i :: 0 <= i < |r| ==> r[i] == worldToObj[i]
  {
    worldToObj
  }

  /** On the tables `add` fills, the commit as written leaves in
      obj_to_world the inverse of each instance's world matrix, so an entry
      keeps the world matrix exactly when that matrix is its own inverse. */
  lemma CommitAsWrittenStoresInverses(n: nat, boxMin: seq<Vec3>, boxMax: seq<Vec3>, worldToObj: seq<Mat4>,
                                      objToWorld: seq<Mat4>, meshId: seq<nat>, instances: seq<ObjectInstance>,
                                      inv: Mat4 -> Mat4)
    requires Tables(n, boxMin, boxMax, worldToObj, objToWorld, meshId, instances)
    requires StoresInverses(worldToObj, instances, inv)
    ensures var r := CommitObjToWorldAsWritten(worldToObj, objToWorld);
            forall i :: 0 <= i < n ==>
              r[i] == inv(instances[i].matrixWorld) &&
              (r[i] == objToWorld[i] <==> inv(instances[i].matrixWorld) == instances[i].matrixWorld)
  {
  }

  /** A translation by (dx, 0, 0). */
  function TranslateX(dx: real): Mat4
  {
    Mat4(Vec4(1.0, 0.0, 0.0, dx), Vec4(0.0, 1.0, 0.0, 0.0), Vec4(0.0, 0.0, 1.0, 0.0), Vec4(0.0, 0.0, 0.0, 1.0))
  }

  /** The lemma above on one instance moved by +1 along x: after the
      commit as written its obj_to_world maps the object origin to x = -1
      instead of x = +1, so hit points are sent back to world space with
      the inverse matrix. */
  lemma CommitAsWrittenLosesWorldMatrix()
    ensures var world := TranslateX(1.0);
            var inverse := TranslateX(-1.0);
            var committed := CommitObjToWorldAsWritten([inverse], [world]);
            committed[0] != world &&
            TransformPoint(committed[0], Splat3(0.0)) == Vec3(-1.0, 0.0, 0.0) &&
            TransformPoint(world, Splat3(0.0)) == Vec3(1.0, 0.0, 0.0)
  {
    var world := TranslateX(1.0);
    var inverse := TranslateX(-1.0);
    assert inverse.r0.w != world.r0.w;
  }
}
