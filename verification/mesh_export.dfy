/** export/mesh.py: per-object triangle, vertex and material-index arrays,
    and the mesh cache that concatenates them into global buffers with one
    contiguous triangle range per mesh. */
module MeshExport {
  import opened Vector
  import opened Options
  import opened Blender
  import opened MaterialExport

  /** A triangle as three global vertex indices. */
  datatype Tri = Tri(a: nat, b: nat, c: nat)

  /** Every vertex index of every triangle is below n. */
  predicate TrisBelow(tris: seq<Tri>, n: nat)
  {
    forall i :: 0 <= i < |tris| ==> tris[i].a < n && tris[i].b < n && tris[i].c < n
  }

  /** The mesh's triangles refer only to its own vertices. */
  predicate MeshWellFormed(mesh: MeshData)
  {
    forall i :: 0 <= i < |mesh.loopTriangles| ==>
      mesh.loopTriangles[i].v0 < |mesh.vertices| && mesh.loopTriangles[i].v1 < |mesh.vertices| &&
      mesh.loopTriangles[i].v2 < |mesh.vertices|
  }

  /** `get_mesh_tris`: each loop triangle's vertex indices plus offset. */
  function GetMeshTris(mesh: MeshData, offset: nat): (tris: seq<Tri>)
    ensures |tris| == |mesh.loopTriangles|
    ensures forall i :: 0 <= i < |tris| ==>
      tris[i].a - offset == mesh.loopTriangles[i].v0 && tris[i].b - offset == mesh.loopTriangles[i].v1 &&
      tris[i].c - offset == mesh.loopTriangles[i].v2
  {
    seq(|mesh.loopTriangles|, i requires 0 <= i < |mesh.loopTriangles| =>
      Tri(mesh.loopTriangles[i].v0 + offset, mesh.loopTriangles[i].v1 + offset, mesh.loopTriangles[i].v2 + offset))
  }

  /** Shifted triangles of a well-formed mesh point into the slice
      [offset, offset + #vertices) of the global vertex buffer. */
  lemma GetMeshTrisInRange(mesh: MeshData, offset: nat)
    requires MeshWellFormed(mesh)
    ensures TrisBelow(GetMeshTris(mesh, offset), offset + |mesh.vertices|)
    ensures forall i :: 0 <= i < |mesh.loopTriangles| ==>
      offset <= GetMeshTris(mesh, offset)[i].a && offset <= GetMeshTris(mesh, offset)[i].b &&
      offset <= GetMeshTris(mesh, offset)[i].c
  {
  }

  /** `get_material_indices`: each triangle's local slot index looked up in
      the object's slot-to-material table; an index past the table's end is
      numpy's IndexError, here None. */
  function GetMaterialIndices(mesh: MeshData, materialIndices: seq<nat>): (r: Option<seq<nat>>)
    ensures r.None? <==> exists i :: 0 <= i < |mesh.loopTriangles| &&
                                     mesh.loopTriangles[i].materialIndex >= |materialIndices|
    ensures r.Some? ==> |r.value| == |mesh.loopTriangles|
    ensures r.Some? ==> forall i :: 0 <= i < |r.value| ==> r.value[i] == materialIndices[mesh.loopTriangles[i].materialIndex]
  {
    if forall i :: 0 <= i < |mesh.loopTriangles| ==> mesh.loopTriangles[i].materialIndex < |materialIndices| then
      Some(seq(|mesh.loopTriangles|, i requires 0 <= i < |mesh.loopTriangles| =>
        materialIndices[mesh.loopTriangles[i].materialIndex]))
    else None
  }

  /** Every looked-up index is one of the table's entries, so a bound on the
      table bounds the result. */
  lemma MaterialIndicesBelow(mesh: MeshData, materialIndices: seq<nat>, n: nat)
    requires forall k :: 0 <= k < |materialIndices| ==> materialIndices[k] < n
    requires GetMaterialIndices(mesh, materialIndices).Some?
    ensures forall i :: 0 <= i < |mesh.loopTriangles| ==> GetMaterialIndices(mesh, materialIndices).value[i] < n
  {
  }

  /** What `export_mesh` returns: the mesh's triangle range, its shifted
      triangles, its vertices and its material ids. */
  datatype ExportedMesh = ExportedMesh(startIndex: nat, endIndex: nat, tris: seq<Tri>,
                                       vertices: seq<Vec3>, matIndices: seq<nat>)

  /** `export_mesh` (the triangulation Blender recomputes is taken as given). */
  function ExportMesh(obj: SceneObject, triangleOffset: nat, vertexOffset: nat, materialIndices: seq<nat>): (r: Option<ExportedMesh>)
    ensures r.None? <==> GetMaterialIndices(obj.data, materialIndices).None?
    ensures r.Some? ==>
      r.value.startIndex == triangleOffset &&
      r.value.endIndex == triangleOffset + |obj.data.loopTriangles| &&
      |r.value.tris| == |r.value.matIndices| == r.value.endIndex - r.value.startIndex &&
      r.value.tris == GetMeshTris(obj.data, vertexOffset) && r.value.vertices == obj.data.vertices &&
      r.value.matIndices == GetMaterialIndices(obj.data, materialIndices).value
  {
    var tris := GetMeshTris(obj.data, vertexOffset);
    match GetMaterialIndices(obj.data, materialIndices)
    case None => None
    case Some(mats) => Some(ExportedMesh(triangleOffset, triangleOffset + |tris|, tris, obj.data.vertices, mats))
  }

  /** The slot-to-material table `add` builds: the material id of each
      slot after registering them all, or [0] for an object without slots. */
  function MaterialIndexList(ms: seq<Option<Material>>, slots: seq<Option<Material>>): (r: seq<nat>)
    ensures |r| == if |slots| == 0 then 1 else |slots|
    ensures |slots| == 0 ==> r == [0]
    ensures forall k :: 0 <= k < |slots| ==> r[k] < |AddAll(ms, slots)| && AddAll(ms, slots)[r[k]] == slots[k]
  {
    if |slots| == 0 then [0]
    else
      var all := AddAll(ms, slots);
      seq(|slots|, k requires 0 <= k < |slots| => IndexOf(all, slots[k]))
  }

  /** Every entry of the table is a row of the colour table committed
      afterwards (row 0 always exists). */
  lemma MaterialIndexListRows(ms: seq<Option<Material>>, slots: seq<Option<Material>>)
    ensures forall k :: 0 <= k < |MaterialIndexList(ms, slots)| ==>
      MaterialIndexList(ms, slots)[k] < |ColorTable(AddAll(ms, slots))|
  {
  }

  /** Ids that pick out each slot's material in a list without duplicates
      are the ones `list.index` gives. */
  lemma IdsAreIndexList(ms: seq<Option<Material>>, slots: seq<Option<Material>>, ids: seq<nat>)
    requires NoDuplicates(AddAll(ms, slots)) && |slots| > 0 && |ids| == |slots|
    requires forall k :: 0 <= k < |slots| ==> ids[k] < |AddAll(ms, slots)| && AddAll(ms, slots)[ids[k]] == slots[k]
    ensures ids == MaterialIndexList(ms, slots)
  {
    var all := AddAll(ms, slots);
    forall k | 0 <= k < |slots|
      ensures ids[k] == MaterialIndexList(ms, slots)[k]
    {
      IndexOfUnique(all, ids[k]);
    }
  }

  lemma AddAllSnoc(ms: seq<Option<Material>>, slots: seq<Option<Material>>, k: nat)
    requires k < |slots|
    ensures AddAll(ms, slots[..k + 1]) == AddMaterial(AddAll(ms, slots[..k]), slots[k])
  {
    assert slots[..k + 1][..k] == slots[..k];
  }

  /** Ids picked out of a list stay valid when the list only grows at its
      end, and one more id for the next slot extends them. */
  lemma IdsExtend(before: seq<Option<Material>>, after: seq<Option<Material>>, slots: seq<Option<Material>>,
                  ids: seq<nat>, id: nat)
    requires |before| <= |after| && after[..|before|] == before
    requires |ids| < |slots|
    requires forall j :: 0 <= j < |ids| ==> ids[j] < |before| && before[ids[j]] == slots[j]
    requires id < |after| && after[id] == slots[|ids|]
    ensures forall j :: 0 <= j < |ids| + 1 ==> (ids + [id])[j] < |after| && after[(ids + [id])[j]] == slots[j]
  {
    forall j | 0 <= j < |ids|
      ensures ids[j] < |after| && after[ids[j]] == slots[j]
    {
      assert after[ids[j]] == after[..|before|][ids[j]];
    }
  }

  /** `[materials.get_index(slot.material) for slot in obj.material_slots]`. */
  method SlotMaterialIds(slots: seq<Option<Material>>, materials: MaterialCache) returns (ids: seq<nat>)
    requires materials.Valid()
    modifies materials
    ensures materials.Valid()
    ensures materials.materials == AddAll(old(materials.materials), slots)
    ensures materials.color == old(materials.color) && materials.emissionColor == old(materials.emissionColor)
    ensures |ids| == |slots|
    ensures forall k :: 0 <= k < |slots| ==> ids[k] < |materials.materials| && materials.materials[ids[k]] == slots[k]
  {
    ghost var ms0 := materials.materials;
    ids := [];
    var k := 0;
    while k < |slots|
      invariant 0 <= k <= |slots| && |ids| == k
      invariant materials.Valid()
      invariant materials.materials == AddAll(ms0, slots[..k])
      invariant materials.color == old(materials.color) && materials.emissionColor == old(materials.emissionColor)
      invariant forall j :: 0 <= j < k ==> ids[j] < |materials.materials| && materials.materials[ids[j]] == slots[j]
    {
      ghost var before := materials.materials;
      var id := materials.GetIndex(slots[k]);
      AddAllSnoc(ms0, slots, k);
      IdsExtend(before, materials.materials, slots, ids, id);
      ids := ids + [id];
      k := k + 1;
    }
    assert slots[..k] == slots;
  }

  /** The slot-to-material table of `add`: each slot's material id, or
      [0] for an object without slots. */
  method MaterialIds(slots: seq<Option<Material>>, materials: MaterialCache) returns (ids: seq<nat>)
    requires materials.Valid()
    modifies materials
    ensures materials.Valid()
    ensures materials.materials == AddAll(old(materials.materials), slots)
    ensures materials.color == old(materials.color) && materials.emissionColor == old(materials.emissionColor)
    ensures ids == MaterialIndexList(old(materials.materials), slots)
  {
    ids := SlotMaterialIds(slots, materials);
    if ids == [] {
      ids := [0];
    } else {
      IdsAreIndexList(old(materials.materials), slots, ids);
    }
  }

  /** Two lists bounded by n and m, with n <= m, concatenate to one bounded by m. */
  lemma BelowAppend(a: seq<nat>, b: seq<nat>, n: nat, m: nat)
    requires n <= m
    requires forall i :: 0 <= i < |a| ==> a[i] < n
    requires forall i :: 0 <= i < |b| ==> b[i] < m
    ensures forall i :: 0 <= i < |a + b| ==> (a + b)[i] < m
  {
  }

  /** Sum of a sequence of counts. */
  function Sum(s: seq<nat>): nat
  {
    if s == [] then 0 else Sum(s[..|s| - 1]) + s[|s| - 1]
  }

  /** starts[k] is the sum of the counts before mesh k, ends[k] adds mesh
      k's own count. */
  ghost predicate Ranges(counts: seq<nat>, starts: seq<nat>, ends: seq<nat>)
  {
    |starts| == |counts| && |ends| == |counts| &&
    (forall k :: 0 <= k < |counts| ==> starts[k] == Sum(counts[..k])) &&
    (forall k :: 0 <= k < |counts| ==> ends[k] == starts[k] + counts[k])
  }

  /** Names map to distinct ids below n. */
  ghost predicate MeshIds(data: map<string, nat>, n: nat)
  {
    (forall name :: name in data ==> data[name] < n) &&
    (forall n1, n2 :: n1 in data && n2 in data && n1 != n2 ==> data[n1] != data[n2])
  }

  lemma RangesAppend(counts: seq<nat>, starts: seq<nat>, ends: seq<nat>, c: nat)
    requires Ranges(counts, starts, ends)
    ensures Sum(counts + [c]) == Sum(counts) + c
    ensures Ranges(counts + [c], starts + [Sum(counts)], ends + [Sum(counts) + c])
  {
    var cs := counts + [c];
    assert cs[..|counts|] == counts;
    forall k | 0 <= k < |counts|
      ensures cs[..k] == counts[..k]
    {
    }
  }

  lemma MeshIdsAdd(data: map<string, nat>, n: nat, name: string)
    requires MeshIds(data, n) && name !in data
    ensures MeshIds(data[name := n], n + 1)
  {
  }

  /** Counters equal buffer lengths (all zero before the first mesh),
      ranges are prefix sums of the per-mesh triangle counts, and names map
      injectively to mesh ids. */
  ghost predicate CacheShape(data: map<string, nat>, triCount: nat, vertCount: nat, meshCount: nat,
                             tris: seq<Tri>, verts: seq<Vec3>, matIndices: seq<nat>,
                             startIndices: seq<nat>, endIndices: seq<nat>, triCounts: seq<nat>)
  {
    |tris| == triCount && |matIndices| == triCount && |verts| == vertCount &&
    |triCounts| == meshCount && triCount == Sum(triCounts) && (meshCount == 0 ==> vertCount == 0) &&
    Ranges(triCounts, startIndices, endIndices) && MeshIds(data, meshCount)
  }

  /** Appending a new mesh whose range starts at the current triangle
      count keeps the shape. */
  lemma CacheShapeAppend(data: map<string, nat>, triCount: nat, vertCount: nat, meshCount: nat,
                         tris: seq<Tri>, verts: seq<Vec3>, matIndices: seq<nat>,
                         startIndices: seq<nat>, endIndices: seq<nat>, triCounts: seq<nat>,
                         name: string, mesh: ExportedMesh)
    requires CacheShape(data, triCount, vertCount, meshCount, tris, verts, matIndices, startIndices, endIndices, triCounts)
    requires name !in data
    requires mesh.startIndex == triCount && mesh.endIndex == triCount + |mesh.tris| && |mesh.matIndices| == |mesh.tris|
    ensures CacheShape(data[name := meshCount], triCount + |mesh.tris|, vertCount + |mesh.vertices|, meshCount + 1,
                       tris + mesh.tris, verts + mesh.vertices, matIndices + mesh.matIndices,
                       startIndices + [mesh.startIndex], endIndices + [mesh.endIndex], triCounts + [|mesh.tris|])
  {
    RangesAppend(triCounts, startIndices, endIndices, |mesh.tris|);
    MeshIdsAdd(data, meshCount, name);
  }

  class MeshCache {
    /** Object name to mesh id. */
    var data: map<string, nat>
    var triCount: nat
    var vertCount: nat
    var meshCount: nat
    /** The global buffers. */
    var tris: seq<Tri>
    var verts: seq<Vec3>
    var matIndices: seq<nat>
    var startIndices: seq<nat>
    var endIndices: seq<nat>
    /** The triangle count of each mesh, in the order they were added. */
    ghost var triCounts: seq<nat>

    /** The cache's fields are as CacheShape describes them. */
    ghost predicate Valid()
      reads this
    {
      CacheShape(data, triCount, vertCount, meshCount, tris, verts, matIndices, startIndices, endIndices, triCounts)
    }

    /** Every triangle's material id is a row of the colour table the
        material cache would commit now. */
    ghost predicate MatIndicesValid(materials: MaterialCache)
      reads this, materials
    {
      forall i :: 0 <= i < |matIndices| ==> matIndices[i] < |ColorTable(materials.materials)|
    }

    constructor()
      ensures Valid()
      ensures data == map[] && triCount == 0 && vertCount == 0 && meshCount == 0
      ensures tris == [] && verts == [] && matIndices == [] && startIndices == [] && endIndices == []
    {
      data := map[];
      triCount, vertCount, meshCount := 0, 0, 0;
      tris, verts, matIndices, startIndices, endIndices := [], [], [], [], [];
      triCounts := [];
    }

    /** `add`: a known name is a no-op; otherwise the object's materials
        are registered, its mesh exported at the current counters and
        appended. ok is false where the source raises IndexError (a slot
        index past the slot table); the material registrations made before
        the error remain. */
    method Add(obj: SceneObject, materials: MaterialCache) returns (ok: bool)
      requires Valid() && materials.Valid()
      modifies this, materials
      ensures Valid() && materials.Valid()
      ensures obj.nameFull in old(data) ==> ok && unchanged(this) && unchanged(materials)
      ensures old(MatIndicesValid(materials)) ==> MatIndicesValid(materials)
      ensures ok ==> obj.nameFull in data
      ensures obj.nameFull !in old(data) ==>
        materials.materials == AddAll(old(materials.materials), obj.materialSlots) &&
        materials.color == old(materials.color) && materials.emissionColor == old(materials.emissionColor)
      ensures obj.nameFull !in old(data) ==>
        (ok <==> GetMaterialIndices(obj.data, MaterialIndexList(old(materials.materials), obj.materialSlots)).Some?)
      ensures obj.nameFull !in old(data) && !ok ==>
        data == old(data) && triCount == old(triCount) && vertCount == old(vertCount) && meshCount == old(meshCount) &&
        tris == old(tris) && verts == old(verts) && matIndices == old(matIndices) &&
        startIndices == old(startIndices) && endIndices == old(endIndices)
      ensures obj.nameFull !in old(data) && ok ==>
        data == old(data)[obj.nameFull := old(meshCount)] && meshCount == old(meshCount) + 1 &&
        triCount == old(triCount) + |obj.data.loopTriangles| && vertCount == old(vertCount) + |obj.data.vertices| &&
        tris == old(tris) + GetMeshTris(obj.data, old(vertCount)) && verts == old(verts) + obj.data.vertices &&
        matIndices == old(matIndices) + GetMaterialIndices(obj.data, MaterialIndexList(old(materials.materials), obj.materialSlots)).value &&
        startIndices == old(startIndices) + [old(triCount)] &&
        endIndices == old(endIndices) + [old(triCount) + |obj.data.loopTriangles|]
    {
      if obj.nameFull in data {
        return true;
      }
      var materialIndices := MaterialIds(obj.materialSlots, materials);
      var exported := ExportMesh(obj, triCount, vertCount, materialIndices);
      if exported.None? {
        return false;
      }
      ghost var rows := |ColorTable(materials.materials)|;
      MaterialIndexListRows(old(materials.materials), obj.materialSlots);
      MaterialIndicesBelow(obj.data, materialIndices, rows);
      if old(MatIndicesValid(materials)) {
        BelowAppend(matIndices, exported.value.matIndices, |ColorTable(old(materials.materials))|, rows);
      }
      AppendMesh(obj.nameFull, exported.value);
      ok := true;
    }

    /** The buffer half of `add`: the first mesh's arrays are taken as
        they are, later ones are concatenated onto the buffers. */
    method AppendBuffers(mesh: ExportedMesh)
      requires meshCount == 0 ==> tris == [] && verts == [] && matIndices == [] && startIndices == [] && endIndices == []
      modifies this
      ensures tris == old(tris) + mesh.tris && verts == old(verts) + mesh.vertices &&
        matIndices == old(matIndices) + mesh.matIndices &&
        startIndices == old(startIndices) + [mesh.startIndex] && endIndices == old(endIndices) + [mesh.endIndex]
      ensures data == old(data) && triCount == old(triCount) && vertCount == old(vertCount) &&
        meshCount == old(meshCount) && triCounts == old(triCounts)
    {
      if meshCount == 0 {
        tris := mesh.tris;
        verts := mesh.vertices;
        matIndices := mesh.matIndices;
        startIndices := [mesh.startIndex];
        endIndices := [mesh.endIndex];
        assert [] + mesh.tris == mesh.tris && [] + mesh.vertices == mesh.vertices && [] + mesh.matIndices == mesh.matIndices;
      } else {
        tris := tris + mesh.tris;
        verts := verts + mesh.vertices;
        matIndices := matIndices + mesh.matIndices;
        startIndices := startIndices + [mesh.startIndex];
        endIndices := endIndices + [mesh.endIndex];
      }
    }

    /** The tail of `add`: append the exported mesh's buffers and range,
        advance the counters and record the name's id. */
    method AppendMesh(name: string, mesh: ExportedMesh)
      requires Valid() && name !in data
      requires mesh.startIndex == triCount && mesh.endIndex == triCount + |mesh.tris| && |mesh.matIndices| == |mesh.tris|
      modifies this
      ensures Valid()
      ensures data == old(data)[name := old(meshCount)] && meshCount == old(meshCount) + 1 &&
        triCount == old(triCount) + |mesh.tris| && vertCount == old(vertCount) + |mesh.vertices| &&
        tris == old(tris) + mesh.tris && verts == old(verts) + mesh.vertices &&
        matIndices == old(matIndices) + mesh.matIndices &&
        startIndices == old(startIndices) + [mesh.startIndex] && endIndices == old(endIndices) + [mesh.endIndex]
    {
      assert meshCount == 0 ==> tris == [] && verts == [] && matIndices == [] && startIndices == [] && endIndices == [];
      CacheShapeAppend(data, triCount, vertCount, meshCount, tris, verts, matIndices, startIndices, endIndices, triCounts,
                       name, mesh);
      AppendBuffers(mesh);
      triCounts := triCounts + [|mesh.tris|];
      triCount, vertCount := triCount + |mesh.tris|, vertCount + |mesh.vertices|;
      data := data[name := meshCount];
      meshCount := meshCount + 1;
    }

    /** `get_mesh`: the id of the object's mesh, adding it first when its
        name is new; None where `add` raises. */
    method GetMesh(obj: SceneObject, materials: MaterialCache) returns (id: Option<nat>)
      requires Valid() && materials.Valid()
      modifies this, materials
      ensures Valid() && materials.Valid()
      ensures obj.nameFull in old(data) ==> id == Some(old(data)[obj.nameFull]) && unchanged(this) && unchanged(materials)
      ensures obj.nameFull !in old(data) && id.Some? ==> id.value == old(meshCount) && data == old(data)[obj.nameFull := old(meshCount)]
      ensures id.None? <==>
        obj.nameFull !in old(data) &&
        GetMaterialIndices(obj.data, MaterialIndexList(old(materials.materials), obj.materialSlots)).None?
      ensures materials.color == old(materials.color) && materials.emissionColor == old(materials.emissionColor)
      ensures old(MatIndicesValid(materials)) ==> MatIndicesValid(materials)
      ensures meshCount >= old(meshCount) && old(data).Keys <= data.Keys && data.Keys <= old(data).Keys + {obj.nameFull}
      ensures forall n :: n in old(data) ==> data[n] == old(data)[n]
      ensures id.Some? ==> obj.nameFull in data && id.value == data[obj.nameFull] && id.value < meshCount
    {
      if obj.nameFull !in data {
        var ok := Add(obj, materials);
        if !ok {
          return None;
        }
      }
      id := Some(data[obj.nameFull]);
    }
  }

  lemma SumAppend(s: seq<nat>, k: nat)
    requires k < |s|
    ensures Sum(s[..k + 1]) == Sum(s[..k]) + s[k]
  {
    assert s[..k + 1][..k] == s[..k];
  }

  /** The mesh ranges tile [0, tri_count): the first starts at 0, each
      ends where the next starts, and the last ends at tri_count. */
  lemma RangesContiguous(c: MeshCache, k: nat)
    requires c.Valid() && k < c.meshCount
    ensures k == 0 ==> c.startIndices[k] == 0
    ensures k + 1 < c.meshCount ==> c.endIndices[k] == c.startIndices[k + 1]
    ensures k + 1 == c.meshCount ==> c.endIndices[k] == c.triCount
    ensures c.startIndices[k] <= c.endIndices[k] <= c.triCount
  {
    assert c.startIndices[k] == Sum(c.triCounts[..k]);
    SumAppend(c.triCounts, k);
    SumPrefixBelow(c.triCounts, k + 1);
    if k + 1 < c.meshCount {
      assert c.startIndices[k + 1] == Sum(c.triCounts[..k + 1]);
    }
    assert c.triCounts[..c.meshCount] == c.triCounts;
  }

  lemma {:induction false} SumPrefixBelow(s: seq<nat>, k: nat)
    requires k <= |s|
    ensures Sum(s[..k]) <= Sum(s)
    decreases |s| - k
  {
    if k < |s| {
      SumPrefixBelow(s, k + 1);
      SumAppend(s, k);
    } else {
      assert s[..k] == s;
    }
  }
}
