# BlenderPythonRenderer core, modelled in Dafny

BlenderPythonRenderer is a path tracer that runs inside Blender. Its export side
(`export/`) flattens a depsgraph into global buffers:
- a material cache that de-duplicates materials and commits a colour table and an emission table;
- a mesh cache that concatenates each MESH object's triangles, vertices and per-triangle material ids, with one contiguous triangle range per mesh;
- an instance cache with one world box and one pair of matrices per MESH instance.

Its render side (`render/`) does the following:
- builds a bounding-volume hierarchy (BVH) laid out in pre-order in one flat list, threaded with `next_id` links;
- tests rays against node boxes (the slab test) and against triangles (Moller-Trumbore, at guard level);
- keeps the closest hit in a triangle range;
- runs a bounce loop per camera ray, and accumulates samples into a W x H framebuffer.

This project models that core, one module per source file:

| module | file | source |
|---|---|---|
| `Vector` | `vector.dfy` | `render/vector.py`, modelled over reals |
| `Rays` | `ray.dfy` | `render/ray.py` |
| `HitRecords` | `hit_record.dfy` | `render/hit_record.py` |
| `MeshRender` | `mesh_render.dfy` | `render/mesh.py` |
| `Bvh` | `bvh.dfy` | `render/bvh.py` |
| `Integrator` | `integrator.dfy` | `render/integrator.py` |
| `Render` | `render.dfy` | `render/render.py` |
| `MeshExport` | `mesh_export.dfy` | `export/mesh.py` |
| `MaterialExport` | `material_export.dfy` | `export/material.py` |
| `InstanceExport` | `instance_export.dfy` | `export/instance.py` |
| `SceneExport` | `scene_export.dfy` | `export/scene.py` |

`Blender` (`blender.dfy`) models the Blender data the exporters read, and `Options` supplies an `Option` type. Coordinates and colours are mathematical reals.

**How the source's forms are modelled**
- **Pure Python becomes functions:** the expression-only code and the recursive BVH builder.
- **Loops become methods with invariants:** `set_next_id_links`, the offset loop of `get_mesh_bvh_nodes`, `get_emission_color`, `hit`, `trace_ray`, `render_pass` and `finish`. Each is proved against a specification function.
- **The caches become classes whose methods update their fields.**
- **The framebuffer and the node lists become arrays.** The framebuffer is an `array2`. The node lists are worked on in an `array`, where the source assigns node fields in place.

**Raising inputs.** Where the source raises on some input, the model returns `None` or `ok == false` instead:
- `min([])` on an empty primitive list;
- numpy's IndexError on a material slot index past the object's slot table.

## Model

| member | source | states |
|---|---|---|
| Rays.At | render/ray.py:9-12 | the point at t = 0 is the origin, and the point minus the origin is the direction scaled by t |
| Rays.TFromP | render/ray.py:15-18 | defined only for a direction with nonzero x, which the source divides by; the point at the returned t has the x coordinate of P |
| Rays.TFromPAt | render/ray.py:9-18 | round trip: t_from_p(r, at(r, t)) == t whenever dir.x != 0 |
| Rays.TFromPOnlyX | render/ray.py:15-18 | two points with the same x give the same t |
| HitRecords.SetFaceNormal | render/hit_record.py:15-19 | front_face is 1 iff dir . outward < 0, else 0; the normal is the outward normal when front-facing, its negation otherwise, so dir . normal <= 0; p and t are unchanged |
| MeshRender.HitTriangle | render/mesh.py:39-64 | a hit iff the ray is not parallel (abs(a) > epsilon), u is in [0, 1], v >= 0, u + v <= 1 and t is in (t_min, t_max]; on a hit the record holds t, at(r, t) and e1 x e2; on a miss it is the empty record |
| MeshRender.AcceptsNarrowed | render/mesh.py:85-89 | testing against the shrunken t_max is testing against the original t_max plus t no farther than the best hit so far |
| MeshRender.ClosestNew | render/mesh.py:85-90 | an accepted triangle no farther than the current best (or the first one accepted) becomes the closest, ties going to the later triangle |
| MeshRender.ClosestKeep | render/mesh.py:85-90 | a rejected or strictly farther triangle leaves the closest one in place |
| MeshRender.Hit | render/mesh.py:67-94 | only triangles in [start_index, end_index) are tested; hit_anything iff some triangle there is accepted under the original t_max; the record is that of the closest accepted triangle (the later one on equal t), oriented against the ray, and material_id is its mat_indices entry; a miss returns the empty record and material 0 |
| Bvh.SurroundingBox | render/bvh.py:16-23 | the box contains both boxes, and each face is a face of one of them |
| Bvh.Center | render/bvh.py:30-32 | the centre is equidistant from the two faces on every axis and lies inside a well-formed box |
| Bvh.MinKey | render/bvh.py:49-54 | the minimum centre coordinate on the axis: below every centre and attained by one |
| Bvh.MaxKey | render/bvh.py:55-59 | the maximum centre coordinate on the axis: above every centre and attained by one |
| Bvh.SplitAxis | render/bvh.py:60-68 | the chosen axis has the largest centroid span, and ties go to x, then y, then z |
| Bvh.InsertByKeyPermutes | render/bvh.py:63-68 | inserting into a list adds exactly that element |
| Bvh.InsertByKeyAbove | render/bvh.py:63-68 | a lower bound on the keys survives insertion |
| Bvh.InsertByKeySorted | render/bvh.py:63-68 | inserting into a sorted list keeps it sorted |
| Bvh.SortByKeyOrdered | render/bvh.py:63-68 | the sort's output is sorted by key |
| Bvh.SortByKeyPermutes | render/bvh.py:63-68 | the sort's output is a permutation of its input |
| Bvh.SortByKeySorted | render/bvh.py:63-68 | the sort's output is sorted and a permutation |
| Bvh.InsertWithKey | render/bvh.py:63-68 | insertion puts the element ahead of those with equal key |
| Bvh.SortStable | render/bvh.py:63-68 | stability: the elements sharing a key keep their relative order, as with Python's list.sort |
| Bvh.SortObjList | render/bvh.py:35-69 | None exactly for the empty list, where min([]) raises; otherwise a list of the same length |
| Bvh.SortObjListSpec | render/bvh.py:35-69 | sort_obj_list returns a permutation of its input, sorted by centre on the split axis, and stable |
| Bvh.TreeEmbedded | render/bvh.py:88-102 | a subtree copied into the larger output list at a position keeps its parent and child ids |
| Bvh.LeafIds | render/bvh.py:76-80 | the primitive ids read off the leaves, in order, are never the internal marker -1 |
| Bvh.LeafIdsAppend | render/bvh.py:102 | the leaf ids of a concatenation are those of its parts |
| Bvh.LeafIdsInsert | render/bvh.py:63-68 | insertion adds exactly the inserted node's leaf ids |
| Bvh.LeafIdsSort | render/bvh.py:63-68 | sorting permutes the leaf ids |
| Bvh.PermutationKeepsLeaves | render/bvh.py:84 | a permutation of leaf inputs is still leaf inputs |
| Bvh.SortObjListLeaves | render/bvh.py:84 | sort_obj_list keeps leaf inputs leaf inputs and permutes their ids |
| Bvh.LeafInputsHalves | render/bvh.py:85-89 | both halves of the sorted list are leaf inputs |
| Bvh.LeafIdsSplit | render/bvh.py:85-89 | the leaf ids split with the list |
| Bvh.Join | render/bvh.py:91-102 | the new node has obj_id -1, left_id = curr_id + 1, right_id = curr_id + 1 + len(left), the given parent, next -1 and the surround of the two children's boxes; it is followed by the left list, then the right list; the leaf ids are the left's then the right's |
| Bvh.InternalTree | render/bvh.py:96-102 | an internal node over two subtrees laid out after it forms a subtree |
| Bvh.JoinedTree | render/bvh.py:88-102 | any list laid out as the join of two subtrees numbered from curr_id + 1 is a tree |
| Bvh.JoinTree | render/bvh.py:88-102 | joining two subtrees numbered from curr_id + 1 yields a tree rooted at curr_id |
| Bvh.LeafTree | render/bvh.py:76-80 | a single primitive, its parent id set, is a one-node tree with the same leaf id |
| Bvh.BuildBvhInner | render/bvh.py:72-104 | for n >= 1 leaves: exactly 2n - 1 nodes in pre-order, ids = curr_id + position, left_id = own id + 1, right_id just past the left subtree, every child naming its parent, each box the surround of its children; the leaf ids are a permutation of the input ids |
| Bvh.InstanceLeafList | render/bvh.py:128-133 | the first loop of build_bvh builds exactly one leaf per instance, in order, with the instance's box and obj_id = its index |
| Bvh.InstanceLeafIds | render/bvh.py:128-133 | the leaves' primitive ids are 0, 1, ..., n - 1 in order |
| Bvh.InstanceTree | render/bvh.py:137 | for n >= 1 instances, a whole tree of 2n - 1 nodes with root id 0 and parent -1 (a single leaf included), parents before children, whose leaves carry 0 .. n - 1, each once |
| Bvh.BuildBvh | render/bvh.py:124-138 | None exactly for no instances (min of an empty list raises); otherwise the instance tree with its next links set |
| Bvh.LinkNextIds | render/bvh.py:138 | the result is the tree with every next id set by the upward walk and nothing else changed |
| Bvh.LinkedTree | render/bvh.py:107-121 | linking a whole tree changes only next ids: each becomes the index just past the node's subtree, -1 when that subtree ends the list; the root keeps parent -1 and gets next -1; a left child's next is its parent's right_id; leaf ids are kept |
| Bvh.InstanceBvhLinks | render/bvh.py:124-138 | what build_bvh returns: node k is node k of the instance tree with next id just past its subtree (-1 on the rightmost path), and the root has parent -1 and next -1 |
| Bvh.InstanceBvhLeafIds | render/bvh.py:124-138 | the leaves of what build_bvh returns carry the instance indices 0 .. n - 1, each once |
| Bvh.InstanceBvhThreads | render/bvh.py:137-138 | in what build_bvh returns, every internal node's left child has the node's right child as its next |
| Bvh.TreeSize | render/bvh.py:72-104 | the subtree over [lo, hi) has hi - lo nodes as counted from its links |
| Bvh.SubtreeAt | render/bvh.py:72-104 | every node of a subtree roots a subtree of its own that ends inside it |
| Bvh.TreeLinks | render/bvh.py:79-100 | an internal node's left child follows it and its right child comes later, both naming it as parent; every non-root node's parent is an earlier internal node that lists it as left or right child |
| Bvh.WholeTreeParents | render/bvh.py:79-100 | in a whole tree, parents come before their children and only the root has parent -1 |
| Bvh.NextInSubtree | render/bvh.py:109-118 | inside a subtree, a node's next is the position right after its own subtree, or the subtree root's next when it ends the subtree |
| Bvh.NextLinks | render/bvh.py:107-121 | on a whole tree the next of node i is the index just past i's subtree, or -1 when that subtree ends the list; the root's next is -1; a left child's next is its parent's right_id |
| Bvh.NextOfSameLinks | render/bvh.py:109-118 | the upward walk reads only parent and right ids, so lists that agree on those agree on every next link |
| Bvh.WithNextLinks | render/bvh.py:120-121 | the linked list has the length of the original |
| Bvh.SetNextIdLinks | render/bvh.py:107-121 | after the loop every node holds the next link computed on the original list, and nothing else changes |
| Bvh.TriLeaf | render/bvh.py:145-157 | the leaf of triangle i has obj_id i + id_offset, no children, and a well-formed box |
| Bvh.TriLeaves | render/bvh.py:150-157 | one leaf input per triangle |
| Bvh.TriLeafList | render/bvh.py:150-157 | the first loop of get_mesh_bvh_nodes builds exactly the triangle leaves, in order |
| Bvh.RelocateLinks | render/bvh.py:163-169 | every left_id, right_id and next_id other than -1 is shifted by bvh_offset; -1 sentinels, parent ids, obj ids and boxes stay |
| Bvh.TriLeafIds | render/bvh.py:151-157 | the leaf ids are id_offset, id_offset + 1, ... in triangle order |
| Bvh.MeshTree | render/bvh.py:150-161 | a whole tree of 2n - 1 nodes with parents before children, whose leaves carry id_offset .. id_offset + n - 1, each once |
| Bvh.MeshBvh | render/bvh.py:148-171 | the nodes get_mesh_bvh_nodes returns number 2n - 1 |
| Bvh.GetMeshBvhNodes | render/bvh.py:148-171 | None exactly for an empty mesh (min of an empty list raises); otherwise the relocated, linked tree over the triangle leaves |
| Bvh.BuildMeshTree | render/bvh.py:150-160 | the leaves of the mesh's triangles and the tree over them |
| Bvh.LinkAndRelocate | render/bvh.py:161-169 | the tree's next links are set, then every link is relocated |
| Bvh.LeafIdsOfLeaves | render/bvh.py:150-157 | the leaf ids of a list of leaves are its obj ids in order |
| Bvh.LeafIdsSameObjIds | render/bvh.py:163-169 | leaf ids depend only on obj ids, which relocation keeps |
| Bvh.RelocatedLinks | render/bvh.py:161-170 | after linking and relocating: obj ids, parent ids (unshifted) and boxes are kept; each next is bvh_offset plus the index past the node's subtree, or -1 on the rightmost path; the root's parent and next are -1 |
| Bvh.RelocatedLeaves | render/bvh.py:163-169 | relocated leaves still have -1 children |
| Bvh.RelocatedInternal | render/bvh.py:161-169 | a relocated internal node's children are at global ids bvh_offset + k + 1 and later, both name k as parent, and the left child's next is the right child |
| Bvh.MeshBvhLeafIds | render/bvh.py:148-171 | the leaves of get_mesh_bvh_nodes carry exactly the ids id_offset .. id_offset + n - 1 |
| Bvh.AxisStep | render/bvh.py:180-192 | one axis of the slab test only narrows the interval; on a direction component of 0 it does not divide, leaves the interval alone and rejects iff the origin is outside the slab |
| Bvh.ParallelOutsideMisses | render/bvh.py:181-183 | a ray parallel to an axis with its origin outside that slab misses |
| Bvh.EmptyIntervalMisses | render/bvh.py:194-196 | an empty starting interval (t_min > t_max) misses |
| Bvh.SlabInterval | render/bvh.py:185-189 | for a nonzero component, the two crossings bound exactly the parameters inside the slab |
| Bvh.AxisStepAt | render/bvh.py:180-192 | t survives an axis step iff it was in the interval and the ray at t is inside that slab (or the ray is parallel to it) |
| Bvh.InBoxSlabs | render/bvh.py:174-196 | a point of the ray is in the box iff it is in all three slabs |
| Bvh.SlabsAt | render/bvh.py:180-192 | the final interval holds t iff t is in [t_min, t_max] and in every slab the ray is not parallel to |
| Bvh.HitAabbSound | render/bvh.py:174-196 | a reported hit has a parameter in [t_min, t_max] whose point is in the box |
| Bvh.HitAabbComplete | render/bvh.py:174-196 | any parameter in [t_min, t_max] whose point is in the box makes the test report a hit |
| Bvh.HitAabbExact | render/bvh.py:174-196 | on a well-formed box hit_aabb is true iff some t in [t_min, t_max] puts the ray in the box |
| MeshExport.GetMeshTris | export/mesh.py:4-9 | one triangle per loop triangle, each vertex index shifted by offset |
| MeshExport.GetMeshTrisInRange | export/mesh.py:4-9 | the shifted triangles of a well-formed mesh point into [offset, offset + #vertices) |
| MeshExport.GetMaterialIndices | export/mesh.py:32-38 | each triangle's slot index k maps to material_indices[k]; None (numpy's IndexError) iff some k is out of range |
| MeshExport.MaterialIndicesBelow | export/mesh.py:32-38 | a bound on the slot table bounds every looked-up id |
| MeshExport.ExportMesh | export/mesh.py:41-52 | the range is (triangle_offset, triangle_offset + #tris); triangles are shifted by vertex_offset; vertices are kept; material ids are looked up, None where the lookup raises |
| MeshExport.MaterialIndexList | export/mesh.py:69-72 | the slot table is each slot's material id after registering all slots, or [0] for an object without slots |
| MeshExport.MaterialIndexListRows | export/mesh.py:69-72 | every entry of the slot table is a row of the colour table committed afterwards |
| MeshExport.IdsAreIndexList | export/mesh.py:69 | ids that pick out each slot's material in a duplicate-free list are list.index's |
| MeshExport.SlotMaterialIds | export/mesh.py:69 | the comprehension registers every slot's material in order; each returned id picks out its slot's material; the colour tables are untouched |
| MeshExport.MaterialIds | export/mesh.py:69-72 | the slot table add uses, including the [0] fallback, and the materials registered |
| MeshExport.RangesAppend | export/mesh.py:91-98 | a new range starting at the running triangle count keeps the starts as prefix sums |
| MeshExport.MeshIdsAdd | export/mesh.py:97-98 | recording a new name at mesh_count keeps names mapped to distinct ids below the count |
| MeshExport.CacheShapeAppend | export/mesh.py:80-98 | appending a mesh keeps the counters equal to the buffer lengths, the ranges contiguous and the ids distinct |
| MeshExport.MeshCache.constructor | export/mesh.py:57-62 | an empty name map and zero tri, vert and mesh counters; the buffers, which the source first creates in add, start as empty sequences |
| MeshExport.MeshCache.Add | export/mesh.py:64-98 | a known name changes nothing; otherwise the slots' materials are registered, ok iff no slot index is out of range, and on ok data[name] = old mesh_count, mesh_count + 1, tri_count and vert_count grow by the mesh's counts, the buffers get the shifted triangles, vertices and material ids appended, and the range (old tri_count, old tri_count + #tris) is appended; every material id stays a committed colour row |
| MeshExport.MeshCache.AppendBuffers | export/mesh.py:80-93 | the first mesh's arrays are taken and later ones concatenated: either way each buffer becomes old buffer + the mesh's |
| MeshExport.MeshCache.AppendMesh | export/mesh.py:77-98 | the buffers, range, counters and name map grow by exactly the mesh, keeping the cache invariant |
| MeshExport.MeshCache.GetMesh | export/mesh.py:100-103 | the id of a known name without change; otherwise the mesh is added first and gets the old mesh_count; None only where add raises |
| MeshExport.RangesContiguous | export/mesh.py:77-98 | the first range starts at 0, each ends where the next starts, and the last ends at tri_count |
| MaterialExport.AddMaterial | export/material.py:11-13 | the material is in the result; the list grows by at most it, at the end, and only when it was absent |
| MaterialExport.AddMaterialIdempotent | export/material.py:11-13 | adding twice is adding once |
| MaterialExport.AddMaterialNoDuplicates | export/material.py:11-13 | the list never holds a material twice |
| MaterialExport.IndexOf | export/material.py:27 | list.index: the first position holding the material |
| MaterialExport.IndexOfUnique | export/material.py:27 | in a duplicate-free list each position is the index of its material |
| MaterialExport.GetIndexSpec | export/material.py:25-27 | get_index of a new material is the old length; a known material's index does not change when others are added |
| MaterialExport.AddAll | export/mesh.py:69 | registering slots in turn keeps the old list as a prefix and adds exactly the slots' materials |
| MaterialExport.AddAllNoDuplicates | export/mesh.py:69 | registering many materials keeps the list duplicate-free |
| MaterialExport.LastEmissionSpec | export/material.py:43-48 | no emission iff no output node is fed by an Emission node; otherwise the colour of one such node with none after it |
| MaterialExport.GetEmissionColor | export/material.py:37-49 | the loop returns the emission specification: zero without a material or node tree, otherwise the last emitting output node's colour |
| MaterialExport.EmissionColorSpec | export/material.py:37-49 | emission is zero unless some output node's Surface is linked from an Emission node; then it is that (last) node's Color times Strength |
| MaterialExport.ColorTable | export/material.py:17-22 | with no materials exactly one magenta row; otherwise one row per material, in insertion order: its diffuse colour, or [0, 0, 0, 0] for a missing material (get_color) |
| MaterialExport.EmissionTable | export/material.py:17-23 | with no materials exactly one magenta row; otherwise one emission row per material, in insertion order |
| MaterialExport.MaterialCache.constructor | export/material.py:8-9 | an empty material list |
| MaterialExport.MaterialCache.Add | export/material.py:11-13 | appends the material unless present, keeping the list duplicate-free |
| MaterialExport.MaterialCache.GetIndex | export/material.py:25-27 | registers the material and returns its position: the old length for a new one, its old index for a known one |
| MaterialExport.MaterialCache.Commit | export/material.py:15-23 | the colour and emission tables become those of the current materials |
| InstanceExport.TransformCorners | export/instance.py:9-10 | each bound-box corner mapped by the world matrix |
| InstanceExport.MinCorner | export/instance.py:12 | the componentwise minimum: below every point, each component attained |
| InstanceExport.MaxCorner | export/instance.py:13 | the componentwise maximum: above every point, each component attained |
| InstanceExport.ExportInstance | export/instance.py:5-16 | box_min <= box_max and the box contains every transformed corner; world_to_obj is the inverse of the world matrix and obj_to_world the world matrix |
| InstanceExport.ExportInstanceTight | export/instance.py:12-13 | the box is the tightest one: each face touches a transformed corner |
| InstanceExport.StoredMeshId | export/instance.py:32-38 | the uint8 stored for a mesh id is below 256 and equals the id when it fits |
| InstanceExport.TablesAppend | export/instance.py:24-40 | appending an instance's entry keeps the five tables parallel, one entry per instance |
| InstanceExport.InstanceCache.constructor | export/instance.py:21-22 | instance_count = 0; the tables, which the source first creates in add, start as empty sequences |
| InstanceExport.InstanceCache.Add | export/instance.py:24-40 | instance_count grows by exactly 1 and each table gets the new instance's entry appended after the unchanged earlier ones |
| InstanceExport.StoresInversesAppend | export/instance.py:26-36 | appending the entry add exports (inv of the world matrix) to world_to_obj keeps every world_to_obj entry the inverse of its instance's world matrix |
| InstanceExport.InstanceCache.Commit | export/instance.py:42-48 | corrected commit: ok is false exactly for a cache with no instances, where the source raises AttributeError; every table keeps its values, so obj_to_world still holds each world matrix |
| InstanceExport.CommitObjToWorldAsWritten | export/instance.py:47 | the committed obj_to_world entries are the world_to_obj entries |
| InstanceExport.CommitAsWrittenStoresInverses | export/instance.py:47 | on tables filled by add, every committed obj_to_world entry is the inverse of its instance's world matrix, and it equals the world matrix exactly when that matrix is its own inverse |
| InstanceExport.CommitAsWrittenLosesWorldMatrix | export/instance.py:47 | an example: for one instance translated by +1 in x, the committed obj_to_world sends the origin to x = -1, not x = +1 |
| SceneExport.MeshInstancesSpec | export/scene.py:23-25 | the filter keeps exactly the MESH instances, so there are at most as many as instances |
| SceneExport.MeshInstancesSnoc | export/scene.py:23-25 | one more instance extends the filtered list by it iff its object is a MESH |
| SceneExport.SlotsCoverSpec | export/mesh.py:32-72 | registering an object raises exactly when some triangle's slot index is past its slot table ([0] when it has none) |
| SceneExport.MeshNamesSnoc | export/scene.py:18-20 | one more object adds its name to the MESH names iff it is a MESH |
| SceneExport.InstancesStep | export/scene.py:23-25 | one more instance grows the filtered list and its mesh names iff its object is a MESH |
| SceneExport.InstanceListStep | export/scene.py:23-25 | after one instance either the instance loop's coverage and mesh-name invariants hold one instance further, or the whole list fails the coverage condition |
| SceneExport.NewMeshesFail | export/scene.py:18-20 | one new-named, uncovered MESH object makes the whole object list fail the coverage condition |
| SceneExport.NewInstancesFail | export/scene.py:23-25 | one new-named, uncovered MESH instance makes the whole instance list fail the coverage condition |
| SceneExport.ResolvedGrow | export/mesh.py:100-103 | stored instance mesh ids stay valid when more meshes are added |
| SceneExport.ResolvedAppend | export/scene.py:25 | an instance stored with its mesh's id keeps the instances resolved |
| SceneExport.Scene.constructor | export/scene.py:12-14 | three fresh, empty caches |
| SceneExport.Scene.Sync | export/scene.py:9-28 | ok exactly when every MESH object whose name is new at its turn has its slot indices in range, and so does every MESH instance's object whose name is neither a MESH object's nor an earlier instance's (every object registered first is checked, repeats are not); on failure it names such an object; on success the mesh names are those of the MESH objects and instances, one instance entry per MESH instance in order (instance_count = their number), every stored mesh id below mesh_count, the tables committed, and every triangle's material id a row of the colour table |
| SceneExport.Scene.SyncMeshes | export/scene.py:18-20 | ok exactly when every MESH object that is the first of its name has its slot indices in range, so always ok when all of them do; on failure it names a MESH object whose slot indices are not; on success exactly the MESH objects are added, and the name map's keys become their names |
| SceneExport.Scene.SyncInstances | export/scene.py:23-25 | ok exactly when every MESH instance whose object's name is not yet a mesh and not an earlier instance's has its slot indices in range; each MESH instance adds exactly one entry with its mesh's id, adding missing meshes, and other instances are skipped; on failure it names a MESH instance whose object's slot indices are out of range |
| SceneExport.Scene.SyncInstanceList | export/scene.py:23-25 | the instance loop: ok exactly when every MESH instance whose object's name is new at its turn is in range; on failure it names a MESH instance whose object's slot indices are out of range; on success the entries are the MESH instances in order and the mesh names grow by their names |
| SceneExport.Scene.SyncInstance | export/scene.py:24-25 | one loop step: fails exactly when the instance is a MESH whose object's name has no mesh yet and whose slot indices are out of range; otherwise a MESH instance gets its mesh (added when new) and one entry; an instance of another type leaves the mesh, instance and material caches unchanged |
| SceneExport.Scene.SyncMesh | export/scene.py:19-20 | one object: fails exactly when it is a MESH whose name has no mesh yet and whose slot indices are out of range; on success a MESH object's name joins the mesh names; an object of another type leaves the mesh and material caches unchanged |
| SceneExport.Scene.Free | export/scene.py:30-34 | all three caches are replaced by fresh, empty ones |
| Integrator.NextRay | render/integrator.py:26-28 | the next ray starts at the hit point and heads along the sampled hemisphere direction |
| Integrator.TraceRay | render/integrator.py:13-37 | the loop returns the colour of the bounce-loop specification and makes its number of scene queries |
| Integrator.QueriesBound | render/integrator.py:15-21 | at most max_depth - bounces scene queries, and none once the budget is spent |
| Integrator.ShallowIsBlack | render/integrator.py:19-21 | with max_depth <= 1 there is no query and the colour is zero |
| Integrator.FirstMissIsBlack | render/integrator.py:30-32 | a miss on the first query returns zero, not the background |
| Integrator.TraceAfterHits | render/integrator.py:22-29 | k hits in a row move the loop to bounce 1 + k, with the throughput multiplied by the k material colours and k queries made |
| Integrator.MissAfterHits | render/integrator.py:25-35 | a miss after k >= 1 hits returns the product of the k hit colours times the background, after k + 1 queries |
| Integrator.ExhaustedIsBlack | render/integrator.py:16-21 | if every query hits until the budget runs out the colour is zero, after max_depth - 1 queries |
| Render.RowIndex | render/render.py:28-31 | row j*W + i lies in [0, W*H) and maps back to (i, j) |
| Render.RowPixel | render/render.py:28-31 | every readout row k maps to the pixel (k mod W, k div W) inside the buffer |
| Render.SamplePixel | render/render.py:36-40 | the sample of pixel (i, j) is the trace of the camera ray through the jittered position, with that pixel's own random draws, a white background and 8 bounces |
| Render.Renderer.constructor | render/render.py:11-16 | before set_resolution, where the source has no size or buffer, W = H = 0 and a 0 x 0 buffer stand in for them |
| Render.Renderer.SetResolution | render/render.py:48-51 | records W and H and allocates a fresh, zeroed W x H buffer |
| Render.Renderer.RenderPass | render/render.py:33-40 | each pixel (i, j) gets exactly its own traced sample added, drawn with its own oracles and jitter; nothing else changes |
| Render.Renderer.RenderColumn | render/render.py:36-40 | the pixels of one column get their samples added; other columns are unchanged |
| Render.Renderer.Finish | render/render.py:42-46 | every pixel is divided by the sample count n (n != 0) |
| Render.Renderer.GetBuffer | render/render.py:28-31 | W*H rows, where row j*W + i holds pixel (i, j); as a function it reads the buffer without changing it |
| Render.GetBufferRows | render/render.py:28-31 | every row k of the readout holds pixel (k mod W, k div W) |

## Left out
- engine.py, ui.py, properties.py and `__init__.py`: Blender engine, UI and registration glue. The camera in export/camera.py and render/camera.py is also left out; the camera is a function parameter of `RenderPass`.
- Floating point: every value is a mathematical real. float32 rounding and the uint32 limit on triangle indices are not modelled. The uint8 mesh id is the one integer width modelled, which `StoredMeshId` wraps explicitly.
- The render-side material-id field `mat_indices` is uint8 (render/mesh.py:23), so a material id of 256 or more wraps when the export is loaded into it. The model keeps unbounded ids, so `MeshRender.Hit`'s material id and `Scene.Sync`'s "every material id is a colour row" hold on the GPU only for ids below 256.
- InstanceExport.StoredMeshId: models numpy before 2.0, where a mesh id of 256 or more wraps modulo 256 in the uint8 array. numpy 2.0 and later raise OverflowError for such an id instead, and that error path is not modelled.
- The geometric correctness of Moller-Trumbore beyond its guard clauses. The normal computed by `get_mesh_normals` is left out because the export does not use it.
- Matrix inversion: numpy's `inv` is the parameter `inv` of `ExportInstance`, `InstanceCache.Add` and `Scene.Sync`. Singular matrices are not modelled.
- Randomness and scene queries are oracles of `Integrator.TraceRay`:
  - the scene hit test;
  - the material colour lookup;
  - the hemisphere sample, indexed by bounce count.

  `RenderPass` takes the oracles per pixel, and the per-pixel `ti.random` offsets as its `jitter` function. Each pixel therefore draws its own hemisphere samples, and a caller gives each pass fresh ones. Within one pixel's path the hemisphere sample is indexed by bounce count.
- GPU parallel execution of the `render_pass` and `finish` kernels is modelled as sequential loops over pixels.
- Taichi field setup and teardown (`setup_data`, `clear_data`, `from_numpy`, the field copy at the end of `build_bvh`), the `ti.init` call and the camera, scene and integrator fields of `Render.__init__`, `sync_depsgraph`, `set_camera_from_matrix` and `save`.
- MeshExport.MeshCache.constructor: the buffers (tris, verts, mat_indices, start and end indices) start as empty sequences, where the source has no such attribute until the first add. The AttributeError raised by reading them earlier is not modelled; no modelled operation reads them before an add.
- InstanceExport.InstanceCache.constructor: the tables start as empty sequences, where the source has no such attribute until the first add. The one modelled reader before an add, `InstanceCache.Commit`, returns ok = false there, standing for the AttributeError.
- Render.Renderer.constructor: W = H = 0 and a 0 x 0 buffer stand for the size and buffer the source lacks until set_resolution. The AttributeError of `get_buffer` before set_resolution is not modelled: `GetBuffer` returns no rows there.
- `calc_loop_triangles` and `foreach_get`: a mesh's loop triangles, vertices and slot indices are the given `MeshData`.
- Stale files (render/world.py, render/scene.py, render/object.py, render/material.py) are not part of this model. render/instance.py's `hit_aabb` is a copy of the one in render/bvh.py.
- Material identity is value equality of the `Material` datatype, where Python compares object identity.
- MaterialExport.GetEmissionColor: an Emission-output node whose Surface input has no link makes the source raise IndexError. The node abstraction always has a link, so that error path is not modelled.
- InstanceExport.ExportInstance: requires a non-empty bound box. Blender always supplies eight corners, and numpy's `min` would raise on none.
- Bvh.BuildBvh: an instance is its box (box_min, box_max), the only instance fields build_bvh reads.
- Bvh.GetMeshBvhNodes: requires every triangle's vertex indices to be in range; the source's numpy indexing would raise or wrap otherwise.
- Bvh.SetNextIdLinks: requires parents to come before children, which every built tree satisfies (`WholeTreeParents`). On other lists the source's upward walk may not end.
- Bvh.LinkAndRelocate: requires parents to come before children, as `SetNextIdLinks` does.
- Bvh.RelocatedLinks: parent ids are not shifted by bvh_offset because the source does not shift them. The relocated parent ids are therefore local positions.
- Bvh.SortObjList: the in-place sort of the caller's list, and the in-place `parent_id` update in `build_bvh_inner`, are modelled on values. Nothing in the source reads the old list afterwards.
- MeshRender.Hit: requires well-formed geometry buffers (indices in range, ranges inside the triangle buffer), as the export produces them.
- Render.Renderer.RenderPass: requires W > 1 and H > 1, because the source divides by W - 1 and H - 1.
- Render.Renderer.Finish: requires n != 0, because the source divides by n.
- Rays.TFromP: requires dir.x != 0, because the source divides by it.
- SceneExport.Scene.Sync: requires that every MESH instance has a non-empty bound box, as `ExportInstance` does. The camera that `__init__` builds is not modelled. The raise inside `__init__` is the result `ok == false`, and the caches are left as they were at the raise.

## Findings

| source | as written | input that shows it | evidently intended | confidence | as-written member | corrected member |
|---|---|---|---|---|---|---|
| export/instance.py:47 | `commit` rebuilds `obj_to_world` from `self.world_to_obj`, so the obj_to_world table ends up holding the inverse matrices | one instance whose world matrix translates by +1 in x: after commit its obj_to_world maps the object origin to x = -1 instead of x = +1 | rebuild `obj_to_world` from `self.obj_to_world`, keeping each instance's world matrix | not executed | InstanceExport.CommitAsWrittenStoresInverses | InstanceExport.InstanceCache.Commit |
