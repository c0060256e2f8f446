/**
 * The parsed glTF 1.0 document the loader walks (the result of `JSON.parse`).
 *
 * Objects the loader looks up by id are maps; objects it enumerates with `for (id in ...)`
 * are sequences of (id, value) pairs in key order, since the order of enumeration matters.
 */
module Document {
  import opened Wrappers

  /** A node carries either a `matrix` or a translation/rotation/scale triple. */
  datatype Transform =
    | MatrixTransform(matrix: seq<real>)
    | TrsTransform(translation: seq<real>, rotation: seq<real>, scale: seq<real>)

  datatype Node = Node(transform: Transform, meshes: seq<string>, children: seq<string>)

  /** `attributes` maps a semantic name (POSITION, NORMAL, ...) to an accessor id, in key order. */
  datatype PrimitiveDef = PrimitiveDef(
    attributes: seq<(string, string)>,
    indices: Option<string>,
    material: string,
    mode: Option<int>)

  datatype MeshDef = MeshDef(primitives: seq<PrimitiveDef>)

  /** `elementType` is the accessor's `type` field: "SCALAR", "VEC3", "MAT4", ... */
  datatype Accessor = Accessor(
    bufferView: string,
    byteOffset: nat,
    byteStride: nat,
    componentType: int,
    count: nat,
    elementType: string)

  datatype BufferView = BufferView(buffer: string, byteOffset: nat, byteLength: nat)

  datatype Material = Material(technique: Option<string>)

  datatype Technique = Technique(program: string)

  datatype Program = Program(vertexShader: string, fragmentShader: string)

  datatype Doc = Doc(
    scene: Option<string>,
    scenes: seq<(string, seq<string>)>,     // scene id and its root node ids
    nodes: map<string, Node>,
    meshes: map<string, MeshDef>,
    accessors: map<string, Accessor>,
    bufferViews: map<string, BufferView>,
    buffers: seq<(string, string)>,         // buffer id and its uri
    images: seq<(string, string)>,          // image id and its uri
    shaders: map<string, string>,           // shader id and its uri
    programs: seq<(string, Program)>,
    materials: map<string, Material>,
    techniques: map<string, Technique>)
}
