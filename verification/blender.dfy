/** The Blender data the exporters read, reduced to what they use: object
    names, types, mesh triangles with their material slot index, material
    slots, bound-box corners, world matrices, and a material's diffuse
    colour and shader nodes. */
module Blender {
  import opened Vector
  import opened Options

  /** Where the Surface input of a Material Output node is linked from. */
  datatype SurfaceLink =
    | FromEmission(color: Vec4, strength: real)
    | FromOther

  /** A shader node, as far as the emission export distinguishes them. */
  datatype ShaderNode =
    | OutputMaterial(surface: SurfaceLink)
    | OtherNode

  /** A material: its name, diffuse colour and optional node tree. */
  datatype Material = Material(name: string, diffuseColor: Vec4, nodeTree: Option<seq<ShaderNode>>)

  /** A loop triangle: three vertex indices and the local material slot. */
  datatype LoopTri = LoopTri(v0: nat, v1: nat, v2: nat, materialIndex: nat)

  datatype MeshData = MeshData(vertices: seq<Vec3>, loopTriangles: seq<LoopTri>)

  /** Blender's object type; only 'MESH' matters to the exporters. */
  datatype ObjectType = MeshType | OtherType

  /** A depsgraph object. A material slot may hold no material. */
  datatype SceneObject = SceneObject(nameFull: string, kind: ObjectType, data: MeshData,
                                     materialSlots: seq<Option<Material>>, boundBox: seq<Vec3>)

  /** A depsgraph object instance: the object and its world matrix. */
  datatype ObjectInstance = ObjectInstance(obj: SceneObject, matrixWorld: Mat4)
}
