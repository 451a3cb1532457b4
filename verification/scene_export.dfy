/** export/scene.py: the scene export that fills the three caches from a
    depsgraph's objects and object instances. */
module SceneExport {
  import opened Vector
  import opened Options
  import opened Blender
  import opened MaterialExport
  import opened MeshExport
  import opened InstanceExport

  /** The names of the MESH objects. */
  function MeshNames(objects: seq<SceneObject>): set<string>
  {
    set o | o in objects && o.kind == MeshType :: o.nameFull
  }

  /** The names of the objects of the MESH instances. */
  function InstanceMeshNames(insts: seq<ObjectInstance>): set<string>
  {
    set x | x in insts && x.obj.kind == MeshType :: x.obj.nameFull
  }

  /** The instances whose object is a MESH, in order. */
  function MeshInstances(insts: seq<ObjectInstance>): seq<ObjectInstance>
  {
    if insts == [] then []
    else
      var rest := MeshInstances(insts[..|insts| - 1]);
      if insts[|insts| - 1].obj.kind == MeshType then rest + [insts[|insts| - 1]] else rest
  }

  /** The filter keeps exactly the MESH instances, in order, so the
      instance count is at most the number of depsgraph instances. */
  lemma {:induction false} MeshInstancesSpec(insts: seq<ObjectInstance>)
    ensures |MeshInstances(insts)| <= |insts|
    ensures forall x :: x in MeshInstances(insts) <==> x in insts && x.obj.kind == MeshType
  {
    if insts != [] {
      MeshInstancesSpec(insts[..|insts| - 1]);
      assert forall x :: x in insts <==> x in insts[..|insts| - 1] || x == insts[|insts| - 1];
    }
  }

  lemma MeshInstancesSnoc(insts: seq<ObjectInstance>, k: nat)
    requires k < |insts|
    ensures MeshInstances(insts[..k + 1]) ==
            if insts[k].obj.kind == MeshType then MeshInstances(insts[..k]) + [insts[k]] else MeshInstances(insts[..k])
  {
    assert insts[..k + 1][..k] == insts[..k];
  }

  /** The object of a MESH instance has its slot indices inside its slot
      table, so registering it cannot raise. */
  predicate SlotsCover(o: SceneObject)
  {
    forall i :: 0 <= i < |o.data.loopTriangles| ==>
      o.data.loopTriangles[i].materialIndex < (if |o.materialSlots| == 0 then 1 else |o.materialSlots|)
  }

  /** Registering an object raises exactly when it is not covered. */
  lemma SlotsCoverSpec(o: SceneObject, ms: seq<Option<Material>>)
    ensures SlotsCover(o) <==> GetMaterialIndices(o.data, MaterialIndexList(ms, o.materialSlots)).Some?
  {
  }

  lemma MeshNamesSnoc(objects: seq<SceneObject>, k: nat)
    requires k < |objects|
    ensures MeshNames(objects[..k + 1]) ==
            MeshNames(objects[..k]) + (if objects[k].kind == MeshType then {objects[k].nameFull} else {})
  {
    assert objects[..k + 1] == objects[..k] + [objects[k]];
  }

  /** The MESH objects among the first k whose name no earlier MESH
      object has are covered: these are the objects `add` exports, and
      the loop over the objects raises at the first one that is not. */
  ghost predicate NewMeshesCoverUpTo(objects: seq<SceneObject>, k: nat)
  {
    forall m :: 0 <= m < k && m < |objects| && objects[m].kind == MeshType &&
                objects[m].nameFull !in MeshNames(objects[..m])
                ==> SlotsCover(objects[m])
  }

  ghost predicate NewMeshesCover(objects: seq<SceneObject>)
  {
    NewMeshesCoverUpTo(objects, |objects|)
  }

  /** The MESH instances among the first k whose object's name is neither
      known nor that of an earlier MESH instance are covered: these are the
      instances whose mesh `get_mesh` adds, raising at the first one that
      is not covered. */
  ghost predicate NewInstancesCoverUpTo(insts: seq<ObjectInstance>, known: set<string>, k: nat)
  {
    forall m :: 0 <= m < k && m < |insts| && insts[m].obj.kind == MeshType &&
                insts[m].obj.nameFull !in known && insts[m].obj.nameFull !in InstanceMeshNames(insts[..m])
                ==> SlotsCover(insts[m].obj)
  }

  ghost predicate NewInstancesCover(insts: seq<ObjectInstance>, known: set<string>)
  {
    NewInstancesCoverUpTo(insts, known, |insts|)
  }

  /** The mesh loop's invariant steps over object k. */
  lemma NewMeshesCoverStep(objects: seq<SceneObject>, k: nat)
    requires k < |objects| && NewMeshesCoverUpTo(objects, k)
    requires objects[k].kind == MeshType && objects[k].nameFull !in MeshNames(objects[..k]) ==> SlotsCover(objects[k])
    ensures NewMeshesCoverUpTo(objects, k + 1)
  {
  }

  /** A new, uncovered MESH object at k makes the whole list fail. */
  lemma NewMeshesFail(objects: seq<SceneObject>, k: nat)
    requires k < |objects| && objects[k].kind == MeshType
    requires objects[k].nameFull !in MeshNames(objects[..k]) && !SlotsCover(objects[k])
    ensures !NewMeshesCover(objects)
  {
  }

  /** The instance loop's invariant steps over instance k. */
  lemma NewInstancesCoverStep(insts: seq<ObjectInstance>, known: set<string>, k: nat)
    requires k < |insts| && NewInstancesCoverUpTo(insts, known, k)
    requires (insts[k].obj.kind == MeshType && insts[k].obj.nameFull !in known &&
              insts[k].obj.nameFull !in InstanceMeshNames(insts[..k])) ==> SlotsCover(insts[k].obj)
    ensures NewInstancesCoverUpTo(insts, known, k + 1)
  {
  }

  /** A MESH instance at k whose object is new and uncovered makes the
      whole list fail. */
  lemma NewInstancesFail(insts: seq<ObjectInstance>, known: set<string>, k: nat)
    requires k < |insts| && insts[k].obj.kind == MeshType && insts[k].obj.nameFull !in known
    requires insts[k].obj.nameFull !in InstanceMeshNames(insts[..k]) && !SlotsCover(insts[k].obj)
    ensures !NewInstancesCover(insts, known)
  {
  }

  /** The instance loop's bookkeeping over instance k: given what one
      step reports, either the invariants hold one instance further or the
      whole list fails. */
  lemma InstanceListStep(insts: seq<ObjectInstance>, known: set<string>, k: nat,
                         keys: set<string>, newKeys: set<string>, ok: bool)
    requires k < |insts| && NewInstancesCoverUpTo(insts, known, k)
    requires keys == known + InstanceMeshNames(insts[..k])
    requires ok <==> !(insts[k].obj.kind == MeshType && insts[k].obj.nameFull !in keys && !SlotsCover(insts[k].obj))
    requires ok ==> newKeys == keys + (if insts[k].obj.kind == MeshType then {insts[k].obj.nameFull} else {})
    ensures !ok ==> !NewInstancesCover(insts, known)
    ensures ok ==> NewInstancesCoverUpTo(insts, known, k + 1)
    ensures ok ==> newKeys == known + InstanceMeshNames(insts[..k + 1])
  {
    InstancesStep(insts, k);
    if ok {
      NewInstancesCoverStep(insts, known, k);
    } else {
      NewInstancesFail(insts, known, k);
    }
  }

  /** One more instance: the mesh instances and their mesh names grow by
      it exactly when its object is a MESH. */
  lemma InstancesStep(insts: seq<ObjectInstance>, k: nat)
    requires k < |insts|
    ensures MeshInstances(insts[..k + 1]) ==
            MeshInstances(insts[..k]) + (if insts[k].obj.kind == MeshType then [insts[k]] else [])
    ensures InstanceMeshNames(insts[..k + 1]) ==
            InstanceMeshNames(insts[..k]) + (if insts[k].obj.kind == MeshType then {insts[k].obj.nameFull} else {})
  {
    var x := insts[k];
    MeshInstancesSnoc(insts, k);
    if x.obj.kind != MeshType {
      assert MeshInstances(insts[..k]) + [] == MeshInstances(insts[..k]);
    }
    assert insts[..k + 1] == insts[..k] + [x];
  }

  /** Every instance's stored mesh id is the uint8 of its object's mesh
      id in data, and names a mesh below meshCount. */
  ghost predicate Resolved(insts: seq<ObjectInstance>, meshIds: seq<nat>, data: map<string, nat>, meshCount: nat)
  {
    |insts| == |meshIds| &&
    forall j :: 0 <= j < |insts| ==>
      insts[j].obj.nameFull in data && meshIds[j] == StoredMeshId(data[insts[j].obj.nameFull]) && meshIds[j] < meshCount
  }

  /** Resolution survives more meshes being added. */
  lemma ResolvedGrow(insts: seq<ObjectInstance>, meshIds: seq<nat>, data: map<string, nat>, meshCount: nat,
                     data': map<string, nat>, meshCount': nat)
    requires Resolved(insts, meshIds, data, meshCount)
    requires meshCount <= meshCount' && forall n :: n in data ==> n in data' && data'[n] == data[n]
    ensures Resolved(insts, meshIds, data', meshCount')
  {
  }

  /** An instance whose mesh is known, stored with that mesh's id, stays resolved. */
  lemma ResolvedAppend(insts: seq<ObjectInstance>, meshIds: seq<nat>, data: map<string, nat>, meshCount: nat,
                       inst: ObjectInstance, id: nat)
    requires Resolved(insts, meshIds, data, meshCount)
    requires inst.obj.nameFull in data && id == data[inst.obj.nameFull] && id < meshCount
    ensures Resolved(insts + [inst], meshIds + [StoredMeshId(id)], data, meshCount)
  {
  }

  class Scene {
    var meshes: MeshCache
    var instances: InstanceCache
    var materials: MaterialCache

    ghost predicate Valid()
      reads this, meshes, instances, materials
    {
      meshes.Valid() && instances.Valid() && materials.Valid() && meshes.MatIndicesValid(materials)
    }

    /** Every stored instance's mesh id is a mesh of the cache: the id of
        its object's mesh, as a uint8. */
    ghost predicate InstancesResolved()
      reads this, meshes, instances
    {
      Resolved(instances.instances, instances.meshId, meshes.data, meshes.meshCount)
    }

    /** The three empty caches `__init__` starts from (the camera is not
        part of this model). */
    constructor()
      ensures Valid() && fresh(meshes) && fresh(instances) && fresh(materials)
      ensures meshes.meshCount == 0 && meshes.data == map[] && meshes.matIndices == []
      ensures instances.instanceCount == 0 && instances.instances == [] && materials.materials == []
    {
      meshes := new MeshCache();
      instances := new InstanceCache();
      materials := new MaterialCache();
    }

    /** The body of `__init__`: add every MESH object's mesh, then one
        instance entry per MESH instance, then commit the materials. ok is
        false where the source raises IndexError in `get_material_indices`. */
    method Sync(objects: seq<SceneObject>, objectInstances: seq<ObjectInstance>, inv: Mat4 -> Mat4) returns (ok: bool)
      requires Valid() && meshes.data == map[] && instances.instanceCount == 0
      requires forall x :: x in objectInstances && x.obj.kind == MeshType ==> |x.obj.boundBox| > 0
      modifies meshes, instances, materials
      ensures Valid()
      ensures ((forall o :: o in objects && o.kind == MeshType ==> SlotsCover(o)) &&
               (forall x :: x in objectInstances && x.obj.kind == MeshType ==> SlotsCover(x.obj))) ==> ok
      ensures ok ==> meshes.data.Keys == MeshNames(objects) + InstanceMeshNames(objectInstances)
      ensures ok ==> instances.instances == MeshInstances(objectInstances)
      ensures ok ==> instances.instanceCount == |MeshInstances(objectInstances)|
      ensures ok ==> InstancesResolved()
      ensures ok ==> materials.color == ColorTable(materials.materials) &&
                     materials.emissionColor == EmissionTable(materials.materials)
      ensures ok ==> forall i :: 0 <= i < |meshes.matIndices| ==> meshes.matIndices[i] < |materials.color|
      ensures !ok ==> (exists o :: o in objects && o.kind == MeshType && !SlotsCover(o)) ||
                      (exists x :: x in objectInstances && x.obj.kind == MeshType && !SlotsCover(x.obj))
      ensures ok <==> NewMeshesCover(objects) && NewInstancesCover(objectInstances, MeshNames(objects))
    {
      ghost var badObject, badInstance;
      ok, badObject := SyncMeshes(objects);
      if !ok {
        return;
      }
      ok, badInstance := SyncInstances(objectInstances, inv);
      if !ok {
        return;
      }
      materials.Commit();
    }

    /** `for obj in depsgraph.objects: if obj.type == 'MESH': meshes.add(obj, materials)`. */
    method SyncMeshes(objects: seq<SceneObject>) returns (ok: bool, ghost bad: Option<SceneObject>)
      requires Valid() && meshes.data == map[]
      modifies meshes, materials
      ensures Valid()
      ensures (forall o :: o in objects && o.kind == MeshType ==> SlotsCover(o)) ==> ok
      ensures !ok ==> bad.Some? && bad.value in objects && bad.value.kind == MeshType && !SlotsCover(bad.value)
      ensures ok <==> NewMeshesCover(objects)
      ensures ok ==> meshes.data.Keys == MeshNames(objects)
    {
      bad := None;
      var k := 0;
      while k < |objects|
        invariant 0 <= k <= |objects|
        invariant Valid()
        invariant meshes.data.Keys == MeshNames(objects[..k])
        invariant NewMeshesCoverUpTo(objects, k)
      {
        MeshNamesSnoc(objects, k);
        ok := SyncMesh(objects[k]);
        if !ok {
          assert objects[k] in objects;
          NewMeshesFail(objects, k);
          bad := Some(objects[k]);
          return;
        }
        NewMeshesCoverStep(objects, k);
        k := k + 1;
      }
      assert objects[..k] == objects;
      ok := true;
    }

    /** One step of the object loop: a MESH object's mesh is added unless
        its name is known; other objects change nothing. */
    method SyncMesh(o: SceneObject) returns (ok: bool)
      requires Valid()
      modifies meshes, materials
      ensures Valid()
      ensures ok <==> !(o.kind == MeshType && o.nameFull !in old(meshes.data) && !SlotsCover(o))
      ensures ok ==> meshes.data.Keys == old(meshes.data.Keys) + (if o.kind == MeshType then {o.nameFull} else {})
      ensures o.kind != MeshType ==> unchanged(meshes) && unchanged(materials)
    {
      ok := true;
      if o.kind == MeshType {
        SlotsCoverSpec(o, materials.materials);
        ok := meshes.Add(o, materials);
      }
    }

    /** `for instance in depsgraph.object_instances: if MESH:
        instances.add(instance, meshes.get_mesh(instance.object, materials))`. */
    method SyncInstances(objectInstances: seq<ObjectInstance>, inv: Mat4 -> Mat4) returns (ok: bool, ghost bad: Option<ObjectInstance>)
      requires Valid() && instances.instanceCount == 0 && instances.instances == []
      requires forall x :: x in objectInstances && x.obj.kind == MeshType ==> |x.obj.boundBox| > 0
      modifies meshes, instances, materials
      ensures Valid()
      ensures materials.color == old(materials.color) && materials.emissionColor == old(materials.emissionColor)
      ensures (forall x :: x in objectInstances && x.obj.kind == MeshType ==> SlotsCover(x.obj)) ==> ok
      ensures !ok ==> bad.Some? && bad.value in objectInstances && bad.value.obj.kind == MeshType && !SlotsCover(bad.value.obj)
      ensures ok <==> NewInstancesCover(objectInstances, old(meshes.data.Keys))
      ensures ok ==> meshes.data.Keys == old(meshes.data.Keys) + InstanceMeshNames(objectInstances)
      ensures ok ==> instances.instances == MeshInstances(objectInstances)
      ensures ok ==> instances.instanceCount == |MeshInstances(objectInstances)|
      ensures ok ==> InstancesResolved()
    {
      ok, bad := SyncInstanceList(objectInstances, inv);
      assert objectInstances[..|objectInstances|] == objectInstances;
    }

    /** The loop of SyncInstances, its results stated over the whole list
        taken as a prefix. */
    method SyncInstanceList(objectInstances: seq<ObjectInstance>, inv: Mat4 -> Mat4) returns (ok: bool, ghost bad: Option<ObjectInstance>)
      requires Valid() && instances.instanceCount == 0 && instances.instances == []
      requires forall x :: x in objectInstances && x.obj.kind == MeshType ==> |x.obj.boundBox| > 0
      modifies meshes, instances, materials
      ensures Valid()
      ensures materials.color == old(materials.color) && materials.emissionColor == old(materials.emissionColor)
      ensures !ok ==> bad.Some? && bad.value in objectInstances && bad.value.obj.kind == MeshType && !SlotsCover(bad.value.obj)
      ensures ok <==> NewInstancesCover(objectInstances, old(meshes.data.Keys))
      ensures ok ==> InstancesResolved()
      ensures ok ==> instances.instances == MeshInstances(objectInstances[..|objectInstances|])
      ensures ok ==>
        meshes.data.Keys == old(meshes.data.Keys) + InstanceMeshNames(objectInstances[..|objectInstances|])
    {
      bad := None;
      ghost var known := meshes.data.Keys;
      var k := 0;
      while k < |objectInstances|
        invariant 0 <= k <= |objectInstances|
        invariant Valid() && InstancesResolved()
        invariant materials.color == old(materials.color) && materials.emissionColor == old(materials.emissionColor)
        invariant instances.instances == MeshInstances(objectInstances[..k])
        invariant meshes.data.Keys == known + InstanceMeshNames(objectInstances[..k])
        invariant NewInstancesCoverUpTo(objectInstances, known, k)
      {
        var x := objectInstances[k];
        ghost var keys := meshes.data.Keys;
        InstancesStep(objectInstances, k);
        assert x in objectInstances;
        ok := SyncInstance(x, inv);
        InstanceListStep(objectInstances, known, k, keys, meshes.data.Keys, ok);
        if !ok {
          bad := Some(x);
          return;
        }
        assert instances.instances == MeshInstances(objectInstances[..k + 1]);
        k := k + 1;
      }
      ok := true;
    }

    /** One step of the instance loop. */
    method SyncInstance(inst: ObjectInstance, inv: Mat4 -> Mat4) returns (ok: bool)
      requires Valid() && InstancesResolved()
      requires inst.obj.kind == MeshType ==> |inst.obj.boundBox| > 0
      modifies meshes, instances, materials
      ensures Valid()
      ensures materials.color == old(materials.color) && materials.emissionColor == old(materials.emissionColor)
      ensures !ok ==> inst.obj.kind == MeshType && !SlotsCover(inst.obj)
      ensures ok <==> !(inst.obj.kind == MeshType && inst.obj.nameFull !in old(meshes.data) && !SlotsCover(inst.obj))
      ensures inst.obj.kind != MeshType ==> unchanged(meshes) && unchanged(instances) && unchanged(materials)
      ensures ok ==> InstancesResolved()
      ensures ok ==> instances.instances == old(instances.instances) + (if inst.obj.kind == MeshType then [inst] else [])
      ensures ok ==> meshes.data.Keys == old(meshes.data.Keys) + (if inst.obj.kind == MeshType then {inst.obj.nameFull} else {})
    {
      if inst.obj.kind == MeshType {
        SlotsCoverSpec(inst.obj, materials.materials);
        ghost var data, meshCount := meshes.data, meshes.meshCount;
        var id := meshes.GetMesh(inst.obj, materials);
        if id.None? {
          return false;
        }
        ResolvedGrow(instances.instances, instances.meshId, data, meshCount, meshes.data, meshes.meshCount);
        ResolvedAppend(instances.instances, instances.meshId, meshes.data, meshes.meshCount, inst, id.value);
        assert meshes.data.Keys == data.Keys + {inst.obj.nameFull};
        instances.Add(inst, id.value, inv);
        assert meshes.Valid() && materials.Valid() && meshes.MatIndicesValid(materials);
      }
      ok := true;
    }

    /** `free`: fresh, empty caches. */
    method Free()
      modifies this
      ensures Valid() && fresh(meshes) && fresh(instances) && fresh(materials)
      ensures meshes.meshCount == 0 && meshes.data == map[] && meshes.tris == [] && meshes.verts == []
      ensures instances.instanceCount == 0 && materials.materials == []
    {
      meshes := new MeshCache();
      instances := new InstanceCache();
      materials := new MaterialCache();
    }
  }
}
