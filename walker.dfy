/**
 * The scene walker: what `_parseGLTF`, `_parseNode`, `_parseIndices` and `_parseAttributes`
 * do to the session state. Each elementary step is a function of the state; each loop of the
 * walk has a predicate saying what its first passes have done, and a step lemma carrying it
 * one pass further. The loader's methods perform the steps and keep the predicates as loop
 * invariants; the reference definitions (the preorder of mesh ids, the header a primitive
 * gets from its definition, a node's local matrix) are stated here.
 *
 * A node may be reached from several parents (every occurrence is walked again), but the
 * node graph must be acyclic: a cycle makes `_parseNode` recurse until the stack overflows.
 * `rank` is a witness of acyclicity: every child ranks below its parent.
 */
module Walker {
  import opened Wrappers
  import opened Matrix
  import opened Document
  import opened Typed
  import opened Tracker
  import opened Model
  import opened Cache

  // ----- What the walker demands of the document -----

  /** `if (primitive.indices)`: the id is present and not the empty string. */
  predicate HasIndices(pd: PrimitiveDef)
  {
    Truthy(pd.indices)
  }

  /** The index accessor and its view exist, and its typed array fits the view. */
  predicate IndicesOk(doc: Doc, pd: PrimitiveDef)
  {
    HasIndices(pd) ==>
      pd.indices.value in doc.accessors &&
      doc.accessors[pd.indices.value].bufferView in doc.bufferViews &&
      FitsLength(FillIndices(0, doc.accessors[pd.indices.value]),
                 doc.bufferViews[doc.accessors[pd.indices.value].bufferView].byteLength)
  }

  /** There is a first attribute, every attribute's accessor exists, and the first one's view exists. */
  predicate AttributesOk(doc: Doc, pd: PrimitiveDef)
  {
    |pd.attributes| > 0 &&
    (forall i :: 0 <= i < |pd.attributes| ==> pd.attributes[i].1 in doc.accessors) &&
    doc.accessors[pd.attributes[0].1].bufferView in doc.bufferViews
  }

  predicate PrimitiveOk(doc: Doc, pd: PrimitiveDef)
  {
    pd.material in doc.materials && IndicesOk(doc, pd) && AttributesOk(doc, pd)
  }

  predicate MeshOk(doc: Doc, id: string)
  {
    id in doc.meshes &&
    forall p :: 0 <= p < |doc.meshes[id].primitives| ==> PrimitiveOk(doc, doc.meshes[id].primitives[p])
  }

  /** Every node's meshes are walkable and its children exist and rank below it. */
  ghost predicate NodesOk(doc: Doc, rank: map<string, nat>)
  {
    forall n :: n in doc.nodes ==>
      n in rank &&
      (forall i :: 0 <= i < |doc.nodes[n].meshes| ==> MeshOk(doc, doc.nodes[n].meshes[i])) &&
      (forall i :: 0 <= i < |doc.nodes[n].children| ==>
        doc.nodes[n].children[i] in doc.nodes && doc.nodes[n].children[i] in rank &&
        rank[doc.nodes[n].children[i]] < rank[n])
  }

  /** The scene ids are distinct (they are the keys of a JSON object) and every root exists. */
  ghost predicate ScenesOk(doc: Doc)
  {
    (forall i, j :: 0 <= i < j < |doc.scenes| ==> doc.scenes[i].0 != doc.scenes[j].0) &&
    (forall i, j :: 0 <= i < |doc.scenes| && 0 <= j < |doc.scenes[i].1| ==> doc.scenes[i].1[j] in doc.nodes)
  }

  ghost predicate WF(doc: Doc, rank: map<string, nat>)
  {
    NodesOk(doc, rank) && ScenesOk(doc)
  }

  // ----- Reference definitions the walk is checked against -----

  /** `primitive.mode || 4`. */
  function ModeOr4(mode: Option<int>): (r: int)
    ensures r != 0
    ensures mode.Some? && mode.value != 0 ==> r == mode.value
    ensures mode.None? || mode.value == 0 ==> r == NewPrimitive().mode
  {
    if mode.Some? && mode.value != 0 then mode.value else 4
  }

  /** The header the document determines for a primitive: mode and index type only from a
      truthy `indices`, the material, and the technique of a truthy `material.technique`
      (`undefined` when the id is unknown). */
  function ExpectedHeader(doc: Doc, pd: PrimitiveDef): (h: Header)
    requires PrimitiveOk(doc, pd)
    ensures h.mode != 0 && h.material == Some(doc.materials[pd.material])
    ensures !HasIndices(pd) ==>
      h.mode == NewPrimitive().mode && h.indicesComponentType == NewPrimitive().indicesComponentType
    ensures h.technique.Some? ==> Truthy(doc.materials[pd.material].technique)
  {
    var mat := doc.materials[pd.material];
    Header(
      if HasIndices(pd) then ModeOr4(pd.mode) else 4,
      if HasIndices(pd) then doc.accessors[pd.indices.value].componentType else 5123,
      Some(mat),
      if Truthy(mat.technique) && mat.technique.value in doc.techniques
      then Some(doc.techniques[mat.technique.value]) else None)
  }

  predicate HeaderFrom(doc: Doc, pd: PrimitiveDef, p: Primitive)
    requires PrimitiveOk(doc, pd)
  {
    HeaderOf(p) == ExpectedHeader(doc, pd)
  }

  /** The matrix of a TRS node: `identity * fromRotationTranslation(r, t)`, then scaled. */
  function TrsMatrix(translation: seq<real>, rotation: seq<real>, scale: seq<real>): Mat4
  {
    Mul(Mul(Identity, FromRotationTranslation(rotation, translation)), Scaling(scale))
  }

  /** A node's own matrix: `parent * matrix` for a matrix node; for a TRS node, its TRS
      matrix, the same whatever the parent. */
  function NodeLocal(t: Transform, parent: Mat4): (r: Mat4)
    ensures t.MatrixTransform? ==> r == Mul(parent, FromArray(t.matrix))
    ensures t.TrsTransform? ==> r == TrsMatrix(t.translation, t.rotation, t.scale)
  {
    match t
    case MatrixTransform(m) => Mul(parent, FromArray(m))
    case TrsTransform(tr, rot, sc) => Mul(Mul(Identity, FromRotationTranslation(rot, tr)), Scaling(sc))
  }

  /** The mesh ids a walk from node `n` appends: its own meshes, then each child's walk. */
  ghost function PreorderNode(doc: Doc, rank: map<string, nat>, n: string): seq<string>
    requires NodesOk(doc, rank) && n in doc.nodes
    decreases rank[n], 1
  {
    doc.nodes[n].meshes + PreorderChildren(doc, rank, doc.nodes[n].children, rank[n])
  }

  ghost function PreorderChildren(doc: Doc, rank: map<string, nat>, cs: seq<string>, bound: nat): seq<string>
    requires NodesOk(doc, rank)
    requires forall i :: 0 <= i < |cs| ==> cs[i] in doc.nodes && cs[i] in rank && rank[cs[i]] < bound
    decreases bound, 0, |cs|
  {
    if cs == [] then []
    else
      var k := |cs| - 1;
      PreorderChildren(doc, rank, cs[..k], bound) + PreorderNode(doc, rank, cs[k])
  }

  ghost function PreorderRoots(doc: Doc, rank: map<string, nat>, roots: seq<string>): seq<string>
    requires NodesOk(doc, rank) && forall i :: 0 <= i < |roots| ==> roots[i] in doc.nodes
  {
    if roots == [] then []
    else
      var k := |roots| - 1;
      PreorderRoots(doc, rank, roots[..k]) + PreorderNode(doc, rank, roots[k])
  }

  function MeshIds(meshes: seq<Mesh>): seq<string>
  {
    seq(|meshes|, i requires 0 <= i < |meshes| => meshes[i].meshId)
  }

  /** `lo, lo+1, ..., hi-1`. */
  function Range(lo: nat, hi: nat): seq<nat>
    requires lo <= hi
  {
    seq(hi - lo, i requires 0 <= i < hi - lo => lo + i)
  }

  /** `newMesh.primitives.push(...)` on the mesh created last. */
  function PushPrimitives(meshes: seq<Mesh>, prims: seq<nat>): seq<Mesh>
    requires |meshes| > 0
  {
    var k := |meshes| - 1;
    meshes[..k] + [meshes[k].(primitives := meshes[k].primitives + prims)]
  }

  /** The primitive indices of a scene's mesh instances, instance after instance. */
  function Flatten(meshes: seq<Mesh>): seq<nat>
  {
    if meshes == [] then [] else Flatten(meshes[..|meshes| - 1]) + meshes[|meshes| - 1].primitives
  }

  /** The primitive indices of the given scenes, scene after scene. */
  function ScenePrims(scenes: seq<(string, seq<string>)>, built: map<string, seq<Mesh>>): seq<nat>
  {
    if scenes == [] then []
    else
      var k := |scenes| - 1;
      ScenePrims(scenes[..k], built) + (if scenes[k].0 in built then Flatten(built[scenes[k].0]) else [])
  }

  /** Each attribute name of a primitive with the accessor it names, in document order. */
  function AttributeAccessors(doc: Doc, pd: PrimitiveDef): (attrs: seq<(string, Accessor)>)
    requires forall i :: 0 <= i < |pd.attributes| ==> pd.attributes[i].1 in doc.accessors
    ensures |attrs| == |pd.attributes|
    ensures forall i :: 0 <= i < |attrs| ==> attrs[i] == (pd.attributes[i].0, doc.accessors[pd.attributes[i].1])
  {
    seq(|pd.attributes|, i requires 0 <= i < |pd.attributes| => (pd.attributes[i].0, doc.accessors[pd.attributes[i].1]))
  }

  /** The target of the `_parseAttributes` callback: the whole view of the first attribute,
      every attribute's accessor, and the node matrix it copies. */
  function VertexTarget(doc: Doc, pd: PrimitiveDef, prim: nat, m: Mat4): (r: Target)
    requires AttributesOk(doc, pd)
    ensures r.FillVertices? && r.prim == prim && r.matrix == m && r.attributes == AttributeAccessors(doc, pd)
    ensures r.first == doc.accessors[pd.attributes[0].1] && r.byteLength == doc.bufferViews[r.first.bufferView].byteLength
    ensures FitsLength(r, r.byteLength)
  {
    var first := doc.accessors[pd.attributes[0].1];
    VertexViewFits(doc.bufferViews[first.bufferView].byteLength, first.componentType, doc.bufferViews[first.bufferView].byteLength);
    FillVertices(prim, first, doc.bufferViews[first.bufferView].byteLength, AttributeAccessors(doc, pd), m)
  }

  /** No onload before parsing is done, and no request or arrival is counted. */
  predicate Quiet(t: Tracker, u: Tracker)
  {
    u.parseDone == t.parseDone && (!t.parseDone ==> u.onloadCalls == t.onloadCalls) &&
    u.bufferRequested == t.bufferRequested && u.bufferLoaded == t.bufferLoaded &&
    u.shaderRequested == t.shaderRequested && u.shaderLoaded == t.shaderLoaded &&
    u.imageRequested == t.imageRequested && u.imageLoaded == t.imageLoaded
  }

  /** What a walk step keeps: no fetch, buffer, program or image changes, primitives are only
      added, and the tracker stays quiet. */
  predicate Walked(s: State, r: State)
  {
    r.buffers == s.buffers && r.baseUri == s.baseUri && r.defaultScene == s.defaultScene &&
    r.programs == s.programs && r.images == s.images && r.requests == s.requests &&
    |s.prims| <= |r.prims| && Quiet(s.tracker, r.tracker)
  }

  /** Primitives are only added, and the header of every old one is kept. */
  predicate HeadersKept(a: seq<Primitive>, b: seq<Primitive>)
  {
    |a| <= |b| && forall i :: 0 <= i < |a| ==> HeaderOf(a[i]) == HeaderOf(b[i])
  }

  /** The primitives created from `a` to `b` are appended, each once and in creation order,
      to the primitive indices of scene `sid`: every new mesh instance owns fresh primitives,
      and no two instances share one. */
  predicate OwnsNew(a: State, b: State, sid: string)
    requires sid in a.scenes && sid in b.scenes && |a.prims| <= |b.prims|
  {
    Flatten(b.scenes[sid]) == Flatten(a.scenes[sid]) + Range(|a.prims|, |b.prims|)
  }

  /** Each mesh instance lists, in order, primitives whose headers come from the primitives
      of its mesh definition. */
  predicate MeshBuilt(doc: Doc, prims: seq<Primitive>, mesh: Mesh)
  {
    MeshOk(doc, mesh.meshId) &&
    |mesh.primitives| == |doc.meshes[mesh.meshId].primitives| &&
    forall i :: 0 <= i < |mesh.primitives| ==>
      mesh.primitives[i] < |prims| && HeaderFrom(doc, doc.meshes[mesh.meshId].primitives[i], prims[mesh.primitives[i]])
  }

  predicate SceneBuilt(doc: Doc, prims: seq<Primitive>, meshes: seq<Mesh>)
  {
    forall j :: 0 <= j < |meshes| ==> MeshBuilt(doc, prims, meshes[j])
  }

  /** The node matrices a walk below `bound` may write: only nodes ranked below `bound`;
      entries are never removed. */
  ghost predicate MatricesKept(doc: Doc, rank: map<string, nat>, a: map<string, Mat4>, b: map<string, Mat4>, bound: nat)
  {
    a.Keys <= b.Keys &&
    forall k :: k in a && (k !in doc.nodes || k !in rank || rank[k] >= bound) ==> b[k] == a[k]
  }

  /** The `_getBufferViewData` callback the walker hands over keeps the walk's frame. */
  lemma GetBufferViewWalked(s: State, doc: Doc, viewId: string, target: Target)
    requires viewId in doc.bufferViews && target.prim < |s.prims|
    requires viewId in s.bufferViews ==> FitsLength(target, |s.bufferViews[viewId]|)
    ensures var r := GetBufferView(s, doc, viewId, target);
      Walked(s, r) && HeadersKept(s.prims, r.prims) && r.scenes == s.scenes && r.nodeMatrix == s.nodeMatrix && |r.prims| == |s.prims|
  {
    if viewId in s.bufferViews {
      GetBufferViewHit(s, doc, viewId, target);
    } else if doc.bufferViews[viewId].buffer in s.buffers {
      GetBufferViewMissLoaded(s, doc, viewId, target);
    } else {
      GetBufferViewMissQueued(s, doc, viewId, target);
    }
  }

  /** The header `_parseIndices` writes before asking for the index data. */
  function IndexHeader(doc: Doc, pd: PrimitiveDef, p: Primitive): Primitive
    requires HasIndices(pd) && IndicesOk(doc, pd)
  {
    p.(mode := ModeOr4(pd.mode), indicesComponentType := doc.accessors[pd.indices.value].componentType)
  }

  /** `json.techniques[material.technique]` for a truthy technique id (`undefined` if unknown). */
  function TechniqueLookup(doc: Doc, id: string): Option<Technique>
  {
    if id in doc.techniques then Some(doc.techniques[id]) else None
  }

  /** `newPrimitive.material = json.materials[primitive.material]`, then the technique of a
      truthy `material.technique`. */
  function SetMaterial(doc: Doc, pd: PrimitiveDef, p: Primitive): Primitive
    requires pd.material in doc.materials
  {
    var mat := doc.materials[pd.material];
    p.(material := Some(mat), technique := if Truthy(mat.technique) then TechniqueLookup(doc, mat.technique.value) else p.technique)
  }

  lemma PushNothing(meshes: seq<Mesh>)
    requires |meshes| > 0
    ensures PushPrimitives(meshes, []) == meshes
  {
    var k := |meshes| - 1;
    assert meshes[k].primitives + [] == meshes[k].primitives;
    assert meshes[..k] + [meshes[k]] == meshes;
  }

  lemma PushPrimitivesTwice(meshes: seq<Mesh>, a: seq<nat>, b: seq<nat>)
    requires |meshes| > 0
    ensures PushPrimitives(PushPrimitives(meshes, a), b) == PushPrimitives(meshes, a + b)
  {
    var k := |meshes| - 1;
    var once := PushPrimitives(meshes, a);
    assert |once| == |meshes| && once[..k] == meshes[..k];
    assert once[k].primitives + b == meshes[k].primitives + (a + b);
  }

  lemma RangeSnoc(lo: nat, hi: nat)
    requires lo <= hi
    ensures Range(lo, hi) + [hi] == Range(lo, hi + 1)
  {
    assert forall i :: 0 <= i < hi - lo ==> (Range(lo, hi) + [hi])[i] == Range(lo, hi + 1)[i];
  }

  // ----- The two `_getBufferViewData` calls of the walk -----

  /** `_parseIndices(json, primitive, newPrimitive)` for the primitive at `pi`: the mode and the
      index type are written first, then the index data is asked for. */
  function ParseIndices(s: State, doc: Doc, pd: PrimitiveDef, pi: nat): State
    requires MemoSized(doc, s.bufferViews) && pi < |s.prims| && HasIndices(pd) && IndicesOk(doc, pd)
  {
    var acc := doc.accessors[pd.indices.value];
    GetBufferView(WithPrim(s, pi, IndexHeader(doc, pd, s.prims[pi])), doc, acc.bufferView, FillIndices(pi, acc))
  }

  /** `_parseIndices` writes the header the document determines for the mode and index type,
      keeps every other header, and keeps the walk's frame and the session invariant. */
  lemma ParseIndicesEffect(s: State, doc: Doc, pd: PrimitiveDef, pi: nat)
    requires Inv(doc, s) && pi < |s.prims| && HasIndices(pd) && IndicesOk(doc, pd)
    ensures var r := ParseIndices(s, doc, pd, pi);
      Walked(s, r) && r.scenes == s.scenes && r.nodeMatrix == s.nodeMatrix && |r.prims| == |s.prims| &&
      r.prims[pi].mode == ModeOr4(pd.mode) &&
      r.prims[pi].indicesComponentType == doc.accessors[pd.indices.value].componentType &&
      r.prims[pi].material == s.prims[pi].material && r.prims[pi].technique == s.prims[pi].technique &&
      (forall i :: 0 <= i < |s.prims| && i != pi ==> HeaderOf(r.prims[i]) == HeaderOf(s.prims[i])) &&
      Inv(doc, r)
  {
    var acc := doc.accessors[pd.indices.value];
    var s1 := WithPrim(s, pi, IndexHeader(doc, pd, s.prims[pi]));
    GetBufferViewWalked(s1, doc, acc.bufferView, FillIndices(pi, acc));
    InvFrame(doc, s, s1);
    GetBufferViewKeepsInv(s1, doc, acc.bufferView, FillIndices(pi, acc));
  }

  /** `if (primitive.indices) this._parseIndices(...)`. */
  function IndicesIfTruthy(s: State, doc: Doc, pd: PrimitiveDef, pi: nat): State
    requires MemoSized(doc, s.bufferViews) && pi < |s.prims| && IndicesOk(doc, pd)
  {
    if HasIndices(pd) then ParseIndices(s, doc, pd, pi) else s
  }

  lemma IndicesIfTruthyEffect(s: State, doc: Doc, pd: PrimitiveDef, pi: nat)
    requires Inv(doc, s) && pi < |s.prims| && IndicesOk(doc, pd)
    ensures var r := IndicesIfTruthy(s, doc, pd, pi);
      Walked(s, r) && r.scenes == s.scenes && r.nodeMatrix == s.nodeMatrix && |r.prims| == |s.prims| &&
      HeaderOf(r.prims[pi]) == (if HasIndices(pd) then HeaderOf(IndexHeader(doc, pd, s.prims[pi])) else HeaderOf(s.prims[pi])) &&
      (forall i :: 0 <= i < |s.prims| && i != pi ==> HeaderOf(r.prims[i]) == HeaderOf(s.prims[i])) &&
      Inv(doc, r)
  {
    if HasIndices(pd) {
      ParseIndicesEffect(s, doc, pd, pi);
    }
  }

  /** `_parseAttributes(json, primitive, newPrimitive, matrix)` for the primitive at `pi`: the
      view of the first attribute is asked for, with a callback that decodes it and records
      every attribute. */
  function ParseAttributes(s: State, doc: Doc, pd: PrimitiveDef, pi: nat, m: Mat4): State
    requires MemoSized(doc, s.bufferViews) && pi < |s.prims| && AttributesOk(doc, pd)
  {
    var first := doc.accessors[pd.attributes[0].1];
    var byteLength := doc.bufferViews[first.bufferView].byteLength;
    VertexViewFits(byteLength, first.componentType, byteLength);
    GetBufferView(s, doc, first.bufferView, VertexTarget(doc, pd, pi, m))
  }

  /** `_parseAttributes` keeps every header, the walk's frame and the session invariant. */
  lemma ParseAttributesEffect(s: State, doc: Doc, pd: PrimitiveDef, pi: nat, m: Mat4)
    requires Inv(doc, s) && pi < |s.prims| && AttributesOk(doc, pd)
    ensures var r := ParseAttributes(s, doc, pd, pi, m);
      Walked(s, r) && HeadersKept(s.prims, r.prims) && |r.prims| == |s.prims| &&
      r.scenes == s.scenes && r.nodeMatrix == s.nodeMatrix && Inv(doc, r)
  {
    var first := doc.accessors[pd.attributes[0].1];
    var byteLength := doc.bufferViews[first.bufferView].byteLength;
    VertexViewFits(byteLength, first.componentType, byteLength);
    GetBufferViewWalked(s, doc, first.bufferView, VertexTarget(doc, pd, pi, m));
    GetBufferViewKeepsInv(s, doc, first.bufferView, VertexTarget(doc, pd, pi, m));
  }

  // ----- One primitive -----

  /** `new Primitive()` pushed onto the primitives of the mesh created last in scene `sid`. */
  function AddPrimitive(s: State, sid: string): State
    requires sid in s.scenes && |s.scenes[sid]| > 0
  {
    s.(prims := s.prims + [NewPrimitive()], scenes := s.scenes[sid := PushPrimitives(s.scenes[sid], [|s.prims|])])
  }

  /** One pass of the primitive loop of `_parseNode`: create and push the primitive, parse its
      indices if `primitive.indices` is truthy, parse its attributes, then set its material and
      technique. */
  function ParsePrimitive(s: State, doc: Doc, pd: PrimitiveDef, sid: string, m: Mat4): State
    requires Inv(doc, s) && PrimitiveOk(doc, pd) && sid in s.scenes && |s.scenes[sid]| > 0
  {
    var pi := |s.prims|;
    var s1 := AddPrimitive(s, sid);
    AddPrimitiveKeepsInv(doc, s, sid);
    var s2 := IndicesIfTruthy(s1, doc, pd, pi);
    IndicesIfTruthyEffect(s1, doc, pd, pi);
    var s3 := ParseAttributes(s2, doc, pd, pi, m);
    ParseAttributesEffect(s2, doc, pd, pi, m);
    WithPrim(s3, pi, SetMaterial(doc, pd, s3.prims[pi]))
  }

  /** Writing the fields of a primitive keeps the session invariant. */
  lemma WithPrimKeepsInv(doc: Doc, s: State, i: nat, p: Primitive)
    requires Inv(doc, s) && i < |s.prims|
    ensures Inv(doc, WithPrim(s, i, p))
  {
    InvFrame(doc, s, WithPrim(s, i, p));
  }

  /** Creating a primitive keeps the session invariant. */
  lemma AddPrimitiveKeepsInv(doc: Doc, s: State, sid: string)
    requires Inv(doc, s) && sid in s.scenes && |s.scenes[sid]| > 0
    ensures Inv(doc, AddPrimitive(s, sid))
  {
    InvFrame(doc, s, AddPrimitive(s, sid));
  }

  /** One primitive: the new primitive's header is the one the document determines. */
  lemma ParsePrimitiveHeader(s: State, doc: Doc, pd: PrimitiveDef, sid: string, m: Mat4)
    requires Inv(doc, s) && PrimitiveOk(doc, pd) && sid in s.scenes && |s.scenes[sid]| > 0
    ensures var r := ParsePrimitive(s, doc, pd, sid, m);
      |r.prims| == |s.prims| + 1 && HeaderFrom(doc, pd, r.prims[|s.prims|])
  {
    var pi := |s.prims|;
    var s1 := AddPrimitive(s, sid);
    AddPrimitiveKeepsInv(doc, s, sid);
    var s2 := IndicesIfTruthy(s1, doc, pd, pi);
    IndicesIfTruthyEffect(s1, doc, pd, pi);
    var s3 := ParseAttributes(s2, doc, pd, pi, m);
    ParseAttributesEffect(s2, doc, pd, pi, m);
    assert s1.prims[pi] == NewPrimitive();
    var h := if HasIndices(pd) then HeaderOf(IndexHeader(doc, pd, NewPrimitive())) else HeaderOf(NewPrimitive());
    assert HeaderOf(s3.prims[pi]) == h;
  }

  /** One primitive: the arena only grows, and every older header is kept. */
  lemma ParsePrimitiveKeeps(s: State, doc: Doc, pd: PrimitiveDef, sid: string, m: Mat4)
    requires Inv(doc, s) && PrimitiveOk(doc, pd) && sid in s.scenes && |s.scenes[sid]| > 0
    ensures HeadersKept(s.prims, ParsePrimitive(s, doc, pd, sid, m).prims)
  {
    var pi := |s.prims|;
    var s1 := AddPrimitive(s, sid);
    AddPrimitiveKeepsInv(doc, s, sid);
    var s2 := IndicesIfTruthy(s1, doc, pd, pi);
    IndicesIfTruthyEffect(s1, doc, pd, pi);
    ParseAttributesEffect(s2, doc, pd, pi, m);
  }

  /** One primitive: its index is pushed onto the last mesh of the scene, and the node
      matrices, the walk's frame and the session invariant are kept. */
  lemma ParsePrimitiveFrame(s: State, doc: Doc, pd: PrimitiveDef, sid: string, m: Mat4)
    requires Inv(doc, s) && PrimitiveOk(doc, pd) && sid in s.scenes && |s.scenes[sid]| > 0
    ensures var r := ParsePrimitive(s, doc, pd, sid, m);
      Inv(doc, r) && Walked(s, r) && r.nodeMatrix == s.nodeMatrix &&
      r.scenes == s.scenes[sid := PushPrimitives(s.scenes[sid], [|s.prims|])]
  {
    var pi := |s.prims|;
    var s1 := AddPrimitive(s, sid);
    AddPrimitiveKeepsInv(doc, s, sid);
    var s2 := IndicesIfTruthy(s1, doc, pd, pi);
    IndicesIfTruthyEffect(s1, doc, pd, pi);
    var s3 := ParseAttributes(s2, doc, pd, pi, m);
    ParseAttributesEffect(s2, doc, pd, pi, m);
    WithPrimKeepsInv(doc, s3, pi, SetMaterial(doc, pd, s3.prims[pi]));
  }

  // ----- One mesh -----

  /** `new Mesh()` for mesh `meshId`, pushed onto the meshes of scene `sid`. */
  function StartMesh(s: State, sid: string, meshId: string): State
    requires sid in s.scenes
  {
    s.(scenes := s.scenes[sid := s.scenes[sid] + [Mesh(meshId, [])]])
  }

  /** After `p` passes of the primitive loop of mesh `meshId`, started from `s`: the new mesh
      ends scene `sid` and holds the `p` primitives created since, each with the header its
      definition determines; nothing else of the walk's frame changed. */
  ghost predicate MeshSoFar(doc: Doc, s: State, r: State, sid: string, meshId: string, p: nat)
    requires MeshOk(doc, meshId) && sid in s.scenes
  {
    var pds := doc.meshes[meshId].primitives;
    p <= |pds| && |r.prims| == |s.prims| + p &&
    r.scenes == s.scenes[sid := s.scenes[sid] + [Mesh(meshId, Range(|s.prims|, |r.prims|))]] &&
    Walked(s, r) && HeadersKept(s.prims, r.prims) && r.nodeMatrix == s.nodeMatrix &&
    forall j :: 0 <= j < p ==> HeaderFrom(doc, pds[j], r.prims[|s.prims| + j])
  }

  lemma MeshStart(doc: Doc, s: State, sid: string, meshId: string)
    requires MeshOk(doc, meshId) && sid in s.scenes
    ensures MeshSoFar(doc, s, StartMesh(s, sid, meshId), sid, meshId, 0)
  {
    assert Range(|s.prims|, |s.prims|) == [];
  }

  lemma StartMeshKeepsInv(doc: Doc, s: State, sid: string, meshId: string)
    requires Inv(doc, s) && sid in s.scenes
    ensures Inv(doc, StartMesh(s, sid, meshId))
  {
    InvFrame(doc, s, StartMesh(s, sid, meshId));
  }

  /** One more pass of the primitive loop extends the mesh by the primitive it creates. */
  lemma MeshStep(doc: Doc, s: State, r: State, sid: string, meshId: string, m: Mat4, p: nat)
    requires MeshOk(doc, meshId) && sid in s.scenes && Inv(doc, r)
    requires MeshSoFar(doc, s, r, sid, meshId, p) && p < |doc.meshes[meshId].primitives|
    ensures sid in r.scenes && |r.scenes[sid]| > 0
    ensures var u := ParsePrimitive(r, doc, doc.meshes[meshId].primitives[p], sid, m);
      MeshSoFar(doc, s, u, sid, meshId, p + 1) && Inv(doc, u)
  {
    var pd := doc.meshes[meshId].primitives[p];
    ParsePrimitiveHeader(r, doc, pd, sid, m);
    ParsePrimitiveKeeps(r, doc, pd, sid, m);
    ParsePrimitiveFrame(r, doc, pd, sid, m);
    MeshExtend(doc, s, r, ParsePrimitive(r, doc, pd, sid, m), sid, meshId, p);
  }

  /** A step that adds one primitive with the header of the next definition, pushes it onto
      the mesh created last and keeps the rest of the walk's frame extends the mesh by one. */
  lemma MeshExtend(doc: Doc, s: State, r: State, u: State, sid: string, meshId: string, p: nat)
    requires MeshOk(doc, meshId) && sid in s.scenes
    requires MeshSoFar(doc, s, r, sid, meshId, p) && p < |doc.meshes[meshId].primitives|
    requires |u.prims| == |r.prims| + 1 && HeaderFrom(doc, doc.meshes[meshId].primitives[p], u.prims[|r.prims|])
    requires HeadersKept(r.prims, u.prims) && Walked(r, u) && u.nodeMatrix == r.nodeMatrix
    requires sid in r.scenes && |r.scenes[sid]| > 0
    requires u.scenes == r.scenes[sid := PushPrimitives(r.scenes[sid], [|r.prims|])]
    ensures MeshSoFar(doc, s, u, sid, meshId, p + 1)
  {
    PushRange(s.scenes[sid], meshId, |s.prims|, |r.prims|);
    HeadersFromExtend(doc, doc.meshes[meshId].primitives, r.prims, u.prims, |s.prims|, p);
  }

  /** The headers of primitives `base .. base+p` come from the first `p` definitions; after a
      step that keeps old headers and gives primitive `base+p` its header, `p+1` do. */
  lemma HeadersFromExtend(doc: Doc, pds: seq<PrimitiveDef>, a: seq<Primitive>, b: seq<Primitive>, base: nat, p: nat)
    requires p < |pds| && forall j :: 0 <= j < |pds| ==> PrimitiveOk(doc, pds[j])
    requires |a| == base + p && HeadersKept(a, b) && |b| == |a| + 1
    requires forall j :: 0 <= j < p ==> HeaderFrom(doc, pds[j], a[base + j])
    requires HeaderFrom(doc, pds[p], b[|a|])
    ensures forall j :: 0 <= j < p + 1 ==> HeaderFrom(doc, pds[j], b[base + j])
  {
    forall j | 0 <= j < p + 1
      ensures HeaderFrom(doc, pds[j], b[base + j])
    {
      if j < p {
        assert HeaderOf(b[base + j]) == HeaderOf(a[base + j]);
      }
    }
  }

  /** When the primitive loop is done, the mesh is built. */
  lemma MeshDone(doc: Doc, s: State, r: State, sid: string, meshId: string)
    requires MeshOk(doc, meshId) && sid in s.scenes
    requires MeshSoFar(doc, s, r, sid, meshId, |doc.meshes[meshId].primitives|)
    ensures MeshBuilt(doc, r.prims, Mesh(meshId, Range(|s.prims|, |r.prims|)))
  {
  }

  /** Appending the next primitive index to the mesh that ends the scene. */
  lemma PushRange(meshes: seq<Mesh>, meshId: string, lo: nat, hi: nat)
    requires lo <= hi
    ensures PushPrimitives(meshes + [Mesh(meshId, Range(lo, hi))], [hi]) == meshes + [Mesh(meshId, Range(lo, hi + 1))]
  {
    RangeSnoc(lo, hi);
    var ms := meshes + [Mesh(meshId, Range(lo, hi))];
    assert ms[..|meshes|] == meshes;
  }

  // ----- One node -----

  /** `this.glTF.nodeMatrix[nodeID] = curMatrix`. */
  function SetNodeMatrix(s: State, n: string, m: Mat4): State
  {
    s.(nodeMatrix := s.nodeMatrix[n := m])
  }

  lemma SetNodeMatrixKeepsInv(doc: Doc, s: State, n: string, m: Mat4)
    requires Inv(doc, s)
    ensures Inv(doc, SetNodeMatrix(s, n, m))
  {
    InvFrame(doc, s, SetNodeMatrix(s, n, m));
  }

  /** From `a` to `b` the walk appended to scene `sid` mesh instances with the mesh ids `ids`,
      which own exactly the primitives created meanwhile (`OwnsNew`); no other scene changed,
      the walk's frame is kept and the scene stays built. */
  ghost predicate Grew(doc: Doc, a: State, b: State, sid: string, ids: seq<string>)
    requires sid in a.scenes
  {
    Walked(a, b) && HeadersKept(a.prims, b.prims) &&
    sid in b.scenes && b.scenes == a.scenes[sid := b.scenes[sid]] &&
    MeshIds(b.scenes[sid]) == MeshIds(a.scenes[sid]) + ids && OwnsNew(a, b, sid) &&
    SceneBuilt(doc, b.prims, b.scenes[sid])
  }

  lemma GrewNothing(doc: Doc, s: State, sid: string)
    requires sid in s.scenes && SceneBuilt(doc, s.prims, s.scenes[sid])
    ensures Grew(doc, s, s, sid, [])
  {
    assert s.scenes[sid := s.scenes[sid]] == s.scenes;
    OwnsNothing(s, sid);
  }

  /** Two walks one after the other append both their mesh instances. */
  lemma GrewTrans(doc: Doc, a: State, b: State, c: State, sid: string, x: seq<string>, y: seq<string>)
    requires sid in a.scenes && Grew(doc, a, b, sid, x) && Grew(doc, b, c, sid, y)
    ensures Grew(doc, a, c, sid, x + y)
  {
    OwnsTrans(a, b, c, sid);
    assert MeshIds(a.scenes[sid]) + x + y == MeshIds(a.scenes[sid]) + (x + y);
    assert c.scenes == a.scenes[sid := c.scenes[sid]];
  }

  /** What walking node `n` in scene `sid` under the matrix `parent` does, from `a` to `b`:
      the scene's mesh ids grow by the preorder of `n`, no other scene changes, `n`'s matrix is
      its local matrix, only matrices of nodes ranked at most `rank[n]` change, and the walk's
      frame is kept. */
  ghost predicate NodeWalked(doc: Doc, rank: map<string, nat>, n: string, sid: string, parent: Mat4, a: State, b: State)
    requires NodesOk(doc, rank) && n in doc.nodes && sid in a.scenes
  {
    Grew(doc, a, b, sid, PreorderNode(doc, rank, n)) &&
    n in b.nodeMatrix && b.nodeMatrix[n] == NodeLocal(doc.nodes[n].transform, parent) &&
    MatricesKept(doc, rank, a.nodeMatrix, b.nodeMatrix, rank[n] + 1)
  }

  /** After `k` passes of the mesh loop of a node, started from `s`: the scene grew by the
      first `k` mesh ids and stays built, and the walk's frame and the node matrices are kept. */
  ghost predicate MeshesSoFar(doc: Doc, s: State, r: State, sid: string, meshIds: seq<string>, k: nat)
    requires sid in s.scenes
  {
    k <= |meshIds| && Grew(doc, s, r, sid, meshIds[..k]) && r.nodeMatrix == s.nodeMatrix
  }

  lemma MeshesStart(doc: Doc, s: State, sid: string, meshIds: seq<string>)
    requires sid in s.scenes && SceneBuilt(doc, s.prims, s.scenes[sid])
    ensures MeshesSoFar(doc, s, s, sid, meshIds, 0)
  {
    GrewNothing(doc, s, sid);
  }

  lemma MeshesStep(doc: Doc, s: State, t: State, u: State, sid: string, meshIds: seq<string>, k: nat)
    requires sid in s.scenes && MeshesSoFar(doc, s, t, sid, meshIds, k) && k < |meshIds|
    requires MeshOk(doc, meshIds[k]) && sid in t.scenes
    requires MeshSoFar(doc, t, u, sid, meshIds[k], |doc.meshes[meshIds[k]].primitives|)
    requires MeshBuilt(doc, u.prims, Mesh(meshIds[k], Range(|t.prims|, |u.prims|)))
    ensures MeshesSoFar(doc, s, u, sid, meshIds, k + 1)
  {
    var mesh := Mesh(meshIds[k], Range(|t.prims|, |u.prims|));
    MeshIdsSnoc(t.scenes[sid], mesh);
    SceneBuiltKept(doc, t.prims, u.prims, t.scenes[sid]);
    assert SceneBuilt(doc, u.prims, t.scenes[sid] + [mesh]);
    FlattenSnoc(t.scenes[sid], mesh);
    assert Grew(doc, t, u, sid, [meshIds[k]]);
    GrewTrans(doc, s, t, u, sid, meshIds[..k], [meshIds[k]]);
    assert meshIds[..k + 1] == meshIds[..k] + [meshIds[k]];
  }

  /** After `c` passes of the children loop of node `n`, started from `s`: the scene grew by
      the preorders of the first `c` children and stays built, only matrices of nodes ranked
      below `n` changed, and the walk's frame is kept. */
  ghost predicate ChildrenSoFar(doc: Doc, rank: map<string, nat>, n: string, s: State, r: State, sid: string, c: nat)
    requires NodesOk(doc, rank) && n in doc.nodes && sid in s.scenes
  {
    var cs := doc.nodes[n].children;
    c <= |cs| && Grew(doc, s, r, sid, PreorderChildren(doc, rank, cs[..c], rank[n])) &&
    MatricesKept(doc, rank, s.nodeMatrix, r.nodeMatrix, rank[n])
  }

  lemma ChildrenStart(doc: Doc, rank: map<string, nat>, n: string, s: State, sid: string)
    requires NodesOk(doc, rank) && n in doc.nodes && sid in s.scenes
    requires SceneBuilt(doc, s.prims, s.scenes[sid])
    ensures ChildrenSoFar(doc, rank, n, s, s, sid, 0)
  {
    GrewNothing(doc, s, sid);
  }

  lemma ChildrenStep(doc: Doc, rank: map<string, nat>, n: string, s: State, t: State, u: State, sid: string, cur: Mat4, c: nat)
    requires NodesOk(doc, rank) && n in doc.nodes && sid in s.scenes
    requires ChildrenSoFar(doc, rank, n, s, t, sid, c) && c < |doc.nodes[n].children|
    requires sid in t.scenes && NodeWalked(doc, rank, doc.nodes[n].children[c], sid, cur, t, u)
    ensures ChildrenSoFar(doc, rank, n, s, u, sid, c + 1)
  {
    var cs := doc.nodes[n].children;
    assert cs[..c + 1][..c] == cs[..c];
    GrewTrans(doc, s, t, u, sid, PreorderChildren(doc, rank, cs[..c], rank[n]), PreorderNode(doc, rank, cs[c]));
    MatricesKeptTrans(doc, rank, s.nodeMatrix, t.nodeMatrix, u.nodeMatrix, rank[n], rank[cs[c]] + 1, rank[n]);
  }

  /** The three parts of `_parseNode` together: the matrix, the mesh loop, the children loop. */
  lemma NodeDone(doc: Doc, rank: map<string, nat>, n: string, sid: string, parent: Mat4, s: State, s2: State, r: State)
    requires NodesOk(doc, rank) && n in doc.nodes && sid in s.scenes
    requires MeshesSoFar(doc, SetNodeMatrix(s, n, NodeLocal(doc.nodes[n].transform, parent)), s2, sid,
                         doc.nodes[n].meshes, |doc.nodes[n].meshes|)
    requires sid in s2.scenes && ChildrenSoFar(doc, rank, n, s2, r, sid, |doc.nodes[n].children|)
    ensures NodeWalked(doc, rank, n, sid, parent, s, r)
  {
    var cs := doc.nodes[n].children;
    var ms := doc.nodes[n].meshes;
    assert cs[..|cs|] == cs && ms[..|ms|] == ms;
    var s1 := SetNodeMatrix(s, n, NodeLocal(doc.nodes[n].transform, parent));
    assert s2.nodeMatrix == s1.nodeMatrix;
    GrewTrans(doc, s1, s2, r, sid, ms, PreorderChildren(doc, rank, cs, rank[n]));
  }

  // ----- _parseGLTF: every scene, every root -----

  /** `this.glTF.scenes[sceneID] = new Scene()`. */
  function NewScene(s: State, sid: string): State
  {
    s.(scenes := s.scenes[sid := []])
  }

  lemma NewSceneKeepsInv(doc: Doc, s: State, sid: string)
    requires Inv(doc, s)
    ensures Inv(doc, NewScene(s, sid))
  {
    InvFrame(doc, s, NewScene(s, sid));
  }

  /** After `k` passes of the root loop of scene `sid`, started from `s`: the scene grew by the
      preorders of the first `k` roots and stays built, no other scene changed, and the walk's
      frame is kept. */
  ghost predicate RootsSoFar(doc: Doc, rank: map<string, nat>, s: State, r: State, sid: string, roots: seq<string>, k: nat)
    requires NodesOk(doc, rank) && (forall i :: 0 <= i < |roots| ==> roots[i] in doc.nodes) && sid in s.scenes
  {
    k <= |roots| && Grew(doc, s, r, sid, PreorderRoots(doc, rank, roots[..k]))
  }

  lemma RootsStart(doc: Doc, rank: map<string, nat>, s: State, sid: string, roots: seq<string>)
    requires NodesOk(doc, rank) && (forall i :: 0 <= i < |roots| ==> roots[i] in doc.nodes) && sid in s.scenes
    requires SceneBuilt(doc, s.prims, s.scenes[sid])
    ensures RootsSoFar(doc, rank, s, s, sid, roots, 0)
  {
    GrewNothing(doc, s, sid);
  }

  lemma RootsStep(doc: Doc, rank: map<string, nat>, s: State, t: State, u: State, sid: string, roots: seq<string>, k: nat)
    requires NodesOk(doc, rank) && (forall i :: 0 <= i < |roots| ==> roots[i] in doc.nodes) && sid in s.scenes
    requires RootsSoFar(doc, rank, s, t, sid, roots, k) && k < |roots|
    requires sid in t.scenes && NodeWalked(doc, rank, roots[k], sid, Identity, t, u)
    ensures RootsSoFar(doc, rank, s, u, sid, roots, k + 1)
  {
    assert roots[..k + 1][..k] == roots[..k];
    GrewTrans(doc, s, t, u, sid, PreorderRoots(doc, rank, roots[..k]), PreorderNode(doc, rank, roots[k]));
  }

  /** Scene `i` of the document has been walked into `r`: its mesh instances are, in order,
      those of the preorder walks of its roots, each built from its mesh definition. */
  ghost predicate SceneWalked(doc: Doc, rank: map<string, nat>, r: State, i: nat)
    requires WF(doc, rank) && i < |doc.scenes|
  {
    var (sid, roots) := doc.scenes[i];
    sid in r.scenes && MeshIds(r.scenes[sid]) == PreorderRoots(doc, rank, roots) &&
    SceneBuilt(doc, r.prims, r.scenes[sid])
  }

  /** After `k` passes of the scene loop of `_parseGLTF`, started from `s`. */
  ghost predicate ScenesSoFar(doc: Doc, rank: map<string, nat>, s: State, r: State, k: nat)
    requires WF(doc, rank)
  {
    k <= |doc.scenes| && Walked(s, r) && HeadersKept(s.prims, r.prims) &&
    (forall i :: 0 <= i < k ==> SceneWalked(doc, rank, r, i)) &&
    ScenePrims(doc.scenes[..k], r.scenes) == Range(|s.prims|, |r.prims|)
  }

  lemma ScenesStart(doc: Doc, rank: map<string, nat>, s: State)
    requires WF(doc, rank)
    ensures ScenesSoFar(doc, rank, s, s, 0)
  {
    assert Range(|s.prims|, |s.prims|) == [];
  }

  lemma ScenesStep(doc: Doc, rank: map<string, nat>, s: State, t: State, u: State, k: nat)
    requires WF(doc, rank) && ScenesSoFar(doc, rank, s, t, k) && k < |doc.scenes|
    requires RootsSoFar(doc, rank, NewScene(t, doc.scenes[k].0), u, doc.scenes[k].0, doc.scenes[k].1, |doc.scenes[k].1|)
    ensures ScenesSoFar(doc, rank, s, u, k + 1)
  {
    var (sid, roots) := doc.scenes[k];
    assert roots[..|roots|] == roots;
    forall i | 0 <= i < k
      ensures SceneWalked(doc, rank, u, i)
    {
      var id := doc.scenes[i].0;
      assert SceneWalked(doc, rank, t, i);
      assert id != sid && u.scenes[id] == t.scenes[id];
      SceneBuiltKept(doc, t.prims, u.prims, t.scenes[id]);
    }
    ScenesPrimsStep(doc, rank, s, t, u, k);
  }

  /** The primitives of the first `k + 1` scenes: those of the first `k`, untouched by the
      walk of scene `k`, then the ones that walk created. */
  lemma ScenesPrimsStep(doc: Doc, rank: map<string, nat>, s: State, t: State, u: State, k: nat)
    requires WF(doc, rank) && ScenesSoFar(doc, rank, s, t, k) && k < |doc.scenes|
    requires RootsSoFar(doc, rank, NewScene(t, doc.scenes[k].0), u, doc.scenes[k].0, doc.scenes[k].1, |doc.scenes[k].1|)
    ensures ScenePrims(doc.scenes[..k + 1], u.scenes) == Range(|s.prims|, |u.prims|)
  {
    var sid := doc.scenes[k].0;
    assert doc.scenes[..k + 1][..k] == doc.scenes[..k];
    forall i | 0 <= i < k
      ensures doc.scenes[..k][i].0 in t.scenes && doc.scenes[..k][i].0 in u.scenes
      ensures u.scenes[doc.scenes[..k][i].0] == t.scenes[doc.scenes[..k][i].0]
    {
      assert SceneWalked(doc, rank, t, i);
      assert doc.scenes[i].0 != sid;
    }
    ScenePrimsFrame(doc.scenes[..k], t.scenes, u.scenes);
    assert Flatten(NewScene(t, sid).scenes[sid]) == [];
    RangeConcat(|s.prims|, |t.prims|, |u.prims|);
  }

  /** What `_parseGLTF` does, from `s` to `r`: the default scene is the document's, every
      scene of the document is walked, no fetch, buffer, program or image changes, parsing is
      marked done and `onload` is invoked exactly when the completion check then passes. */
  ghost predicate Parsed(doc: Doc, rank: map<string, nat>, s: State, r: State)
    requires WF(doc, rank)
  {
    r.buffers == s.buffers && r.baseUri == s.baseUri && r.programs == s.programs &&
    r.images == s.images && r.requests == s.requests && r.defaultScene == doc.scene &&
    HeadersKept(s.prims, r.prims) &&
    (forall i :: 0 <= i < |doc.scenes| ==> SceneWalked(doc, rank, r, i)) &&
    ScenePrims(doc.scenes, r.scenes) == Range(|s.prims|, |r.prims|) &&
    r.tracker.parseDone &&
    r.tracker.bufferRequested == s.tracker.bufferRequested && r.tracker.bufferLoaded == s.tracker.bufferLoaded &&
    r.tracker.shaderRequested == s.tracker.shaderRequested && r.tracker.shaderLoaded == s.tracker.shaderLoaded &&
    r.tracker.imageRequested == s.tracker.imageRequested && r.tracker.imageLoaded == s.tracker.imageLoaded &&
    r.tracker.onloadCalls == s.tracker.onloadCalls + (if ReadyToFire(r.tracker) then 1 else 0)
  }

  /** The scene loop and the closing `_parseDone = true; _checkComplete()` together. */
  lemma ParseDone(doc: Doc, rank: map<string, nat>, s: State, w: State)
    requires WF(doc, rank) && !s.tracker.parseDone
    requires ScenesSoFar(doc, rank, s.(defaultScene := doc.scene), w, |doc.scenes|)
    ensures Parsed(doc, rank, s, Checked(w.(tracker := w.tracker.(parseDone := true))))
  {
    var r := Checked(w.(tracker := w.tracker.(parseDone := true)));
    forall i | 0 <= i < |doc.scenes|
      ensures SceneWalked(doc, rank, r, i)
    {
      assert SceneWalked(doc, rank, w, i);
    }
    assert doc.scenes[..|doc.scenes|] == doc.scenes;
  }

  // ----- Helpers -----

  lemma MeshIdsSnoc(meshes: seq<Mesh>, mesh: Mesh)
    ensures MeshIds(meshes + [mesh]) == MeshIds(meshes) + [mesh.meshId]
  {
  }

  /** Keeping the headers of old primitives keeps every mesh built. */
  lemma SceneBuiltKept(doc: Doc, a: seq<Primitive>, b: seq<Primitive>, meshes: seq<Mesh>)
    requires HeadersKept(a, b) && SceneBuilt(doc, a, meshes)
    ensures SceneBuilt(doc, b, meshes)
  {
    forall j, i | 0 <= j < |meshes| && 0 <= i < |meshes[j].primitives|
      ensures HeaderOf(b[meshes[j].primitives[i]]) == HeaderOf(a[meshes[j].primitives[i]])
    {
    }
  }

  lemma RangeConcat(a: nat, b: nat, c: nat)
    requires a <= b <= c
    ensures Range(a, b) + Range(b, c) == Range(a, c)
  {
    assert forall i :: 0 <= i < c - a ==> (Range(a, b) + Range(b, c))[i] == a + i;
  }

  lemma FlattenSnoc(meshes: seq<Mesh>, mesh: Mesh)
    ensures Flatten(meshes + [mesh]) == Flatten(meshes) + mesh.primitives
  {
    assert (meshes + [mesh])[..|meshes|] == meshes;
  }

  lemma OwnsNothing(s: State, sid: string)
    requires sid in s.scenes
    ensures OwnsNew(s, s, sid)
  {
    assert Range(|s.prims|, |s.prims|) == [];
  }

  /** Two walks one after the other own the primitives both created. */
  lemma OwnsTrans(a: State, b: State, c: State, sid: string)
    requires sid in a.scenes && sid in b.scenes && sid in c.scenes
    requires |a.prims| <= |b.prims| <= |c.prims| && OwnsNew(a, b, sid) && OwnsNew(b, c, sid)
    ensures OwnsNew(a, c, sid)
  {
    RangeConcat(|a.prims|, |b.prims|, |c.prims|);
  }

  /** The primitives of scenes whose instances did not change are the same. */
  lemma {:induction false} ScenePrimsFrame(scenes: seq<(string, seq<string>)>, a: map<string, seq<Mesh>>, b: map<string, seq<Mesh>>)
    requires forall i :: 0 <= i < |scenes| ==> scenes[i].0 in a && scenes[i].0 in b && b[scenes[i].0] == a[scenes[i].0]
    ensures ScenePrims(scenes, b) == ScenePrims(scenes, a)
  {
    if scenes != [] {
      ScenePrimsFrame(scenes[..|scenes| - 1], a, b);
    }
  }

  lemma MatricesKeptTrans(doc: Doc, rank: map<string, nat>, a: map<string, Mat4>, b: map<string, Mat4>, c: map<string, Mat4>,
                          x: nat, y: nat, z: nat)
    requires MatricesKept(doc, rank, a, b, x) && MatricesKept(doc, rank, b, c, y) && x <= z && y <= z
    ensures MatricesKept(doc, rank, a, c, z)
  {
  }
}
