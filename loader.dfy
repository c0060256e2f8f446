/**
 * `glTFLoader`: the loader object, whose fields the callbacks update in place, together
 * with the `glTFModel` it fills. Each method is proved to leave the session in the state the
 * `Cache` and `Tracker` functions prescribe, or, for the scene walk, in a state related to
 * the document by the `Walker` reference definitions.
 *
 * Fetches do not happen here: a method that issues one appends it to the ghost `requests`
 * log, and the arrival of a response is a method call (`JsonArrived`, `BufferArrived`,
 * `ImageArrived`, `ShaderArrived` for either stage).
 */
module Loader {
  import opened Wrappers
  import opened Matrix
  import opened Document
  import opened Typed
  import opened Tracker
  import opened Arrivals
  import opened Model
  import opened Cache
  import opened Walker
  import opened BaseUri

  /** `glTFModel`: the document once parsed, the default scene, and what the walk and the
      callbacks fill in. Primitives live in the `prims` arena and meshes refer to them by
      index. */
  datatype GltfModel = GltfModel(json: Option<Doc>, defaultScene: Option<string>,
                                 scenes: map<string, seq<Mesh>>, nodeMatrix: map<string, Mat4>,
                                 prims: seq<Primitive>, programs: map<string, ProgramState>,
                                 images: map<string, Image>)

  class GltfLoader {
    /** `_parseDone`, `_loadDone`, the request/arrival counters, the deferred-task counters,
        and how many times `onload` has been invoked since the last `_init`. */
    var tracker: Tracker
    var buffers: map<string, Bytes>
    var bufferTasks: map<string, seq<Task>>
    var bufferViews: map<string, Bytes>
    var baseUri: string

    /** The `glTFModel` being filled (`json` is `None` until `_parseGLTF` stores it). */
    var glTF: GltfModel

    /** Every fetch issued since `loadGLTF`, in order. */
    ghost var requests: seq<Request>

    /** The loader and its model as a `Model.State` value. */
    ghost function Session(): State
      reads this
    {
      State(tracker, buffers, bufferTasks, bufferViews, baseUri, glTF.defaultScene, glTF.scenes,
            glTF.nodeMatrix, glTF.prims, glTF.programs, glTF.images, requests)
    }

    /** Before the document is parsed nothing is cached, queued or parsed; afterwards the
        session invariant holds for that document. */
    ghost predicate Valid()
      reads this
    {
      (glTF.json.None? ==>
        buffers == map[] && bufferTasks == map[] && bufferViews == map[] &&
        tracker.pendingTasks == tracker.finishedPendingTasks && !tracker.parseDone) &&
      (glTF.json.Some? ==> Inv(glTF.json.value, Session()))
    }

    /** `new glTFLoader(gl)`: `_init`, and no model yet (modelled as an empty one). */
    constructor ()
      ensures Valid() && glTF.json.None?
      ensures Session() == State(Initial(), map[], map[], map[], "", None, map[], map[], [], map[], map[], [])
    {
      tracker := Tracker(false, false, 0, 0, 0, 0, 0, 0, 0, 0, 0);
      buffers, bufferTasks, bufferViews := map[], map[], map[];
      baseUri := "";
      glTF := GltfModel(None, None, map[], map[], [], map[], map[]);
      requests := [];
    }

    /** `_init`: resets the counters, flags, buffers, task lists and cached views, and forgets
        `onload`. */
    method Init()
      modifies this
      ensures Session() == old(Session()).(tracker := Initial(), buffers := map[], bufferTasks := map[], bufferViews := map[])
      ensures glTF.json == old(glTF.json)
    {
      tracker := Tracker(false, false, 0, 0, 0, 0, 0, 0, 0, 0, 0);
      buffers, bufferTasks := map[], map[];
      bufferViews := map[];
    }

    /** `_checkComplete`. */
    method CheckComplete()
      modifies this
      ensures Session() == Checked(old(Session()))
      ensures glTF.json == old(glTF.json)
    {
      if tracker.bufferRequested == tracker.bufferLoaded && tracker.shaderRequested == tracker.shaderLoaded &&
         tracker.imageRequested == tracker.imageLoaded {
        tracker := tracker.(loadDone := true);
      }
      if tracker.loadDone && tracker.parseDone && tracker.pendingTasks == tracker.finishedPendingTasks {
        tracker := tracker.(onloadCalls := tracker.onloadCalls + 1);
      }
    }

    /** The body of a bufferView callback: fill the primitive, then `_checkComplete`. */
    method RunCallback(t: Target, data: Option<Bytes>)
      requires t.prim < |glTF.prims| && Accepts(t, data)
      modifies this
      ensures Session() == Callback(old(Session()), t, data)
      ensures glTF.json == old(glTF.json)
    {
      match t {
        case FillIndices(p, a) =>
          glTF := glTF.(prims := glTF.prims[p := glTF.prims[p].(indices := GetAccessorData(data, a))]);
        case FillVertices(p, first, byteLength, attrs, m) =>
          var p0 := glTF.prims[p];
          var vb := ArrayBuffer2TypedArray(data, 0, VertexCount(byteLength, first.componentType), first.componentType);
          var q := p0.(vertexBuffer := vb);
          var i := 0;
          while i < |attrs|
            invariant 0 <= i <= |attrs|
            invariant q == p0.(vertexBuffer := vb, matrix := if i == 0 then p0.matrix else m,
                               attributes := AddAttributes(p0.attributes, attrs[..i]))
          {
            assert attrs[..i + 1][..i] == attrs[..i];
            q := q.(matrix := m, attributes := q.attributes[attrs[i].0 := AttributeOf(attrs[i].1)]);
            i := i + 1;
          }
          assert attrs[..i] == attrs;
          glTF := glTF.(prims := glTF.prims[p := q]);
      }
      CheckComplete();
    }

    /** `_getBufferViewData(json, viewId, callback)` with the callback given as `target`. */
    method GetBufferViewData(doc: Doc, viewId: string, target: Target)
      requires viewId in doc.bufferViews && target.prim < |glTF.prims|
      requires viewId in bufferViews ==> FitsLength(target, |bufferViews[viewId]|)
      modifies this
      ensures Session() == GetBufferView(old(Session()), doc, viewId, target)
      ensures glTF.json == old(glTF.json)
    {
      if viewId in bufferViews {
        RunCallback(target, Some(bufferViews[viewId]));
      } else {
        var view := doc.bufferViews[viewId];
        if view.buffer in buffers {
          bufferViews := bufferViews[viewId := ViewSlice(buffers[view.buffer], view)];
          RunCallback(target, None);
        } else {
          tracker := tracker.(pendingTasks := tracker.pendingTasks + 1);
          var queue := if view.buffer in bufferTasks then bufferTasks[view.buffer] else [];
          bufferTasks := bufferTasks[view.buffer := queue + [Task(viewId, view, target)]];
        }
      }
    }

    /** One task queued by `_getBufferViewData`, run on the arrived bytes. */
    method RunTask(doc: Doc, t: Task, bytes: Bytes)
      requires MemoSized(doc, bufferViews) && Covers(doc, t.view.buffer, bytes)
      requires TaskOk(doc, |glTF.prims|, t.view.buffer, t)
      modifies this
      ensures Session() == Cache.RunTask(old(Session()), doc, t, bytes)
      ensures glTF.json == old(glTF.json)
    {
      if t.viewId !in bufferViews {
        MemoSizedInsert(doc, bufferViews, t.viewId, ViewSlice(bytes, t.view));
        bufferViews := bufferViews[t.viewId := ViewSlice(bytes, t.view)];
      }
      tracker := tracker.(finishedPendingTasks := tracker.finishedPendingTasks + 1);
      RunCallback(t.target, Some(bufferViews[t.viewId]));
    }

    /** The task loop of `loadArrayBufferCallback`: the tasks queued on buffer `b`, in order. */
    method RunQueue(doc: Doc, b: string, ts: seq<Task>, bytes: Bytes)
      requires MemoSized(doc, bufferViews) && Covers(doc, b, bytes)
      requires forall i :: 0 <= i < |ts| ==> TaskOk(doc, |glTF.prims|, b, ts[i])
      modifies this
      ensures Session() == RunTasks(old(Session()), doc, b, ts, bytes)
      ensures glTF.json == old(glTF.json)
    {
      ghost var s := Session();
      var i := 0;
      while i < |ts|
        invariant 0 <= i <= |ts|
        invariant Session() == RunTasks(s, doc, b, ts[..i], bytes)
        invariant glTF.json == old(glTF.json)
      {
        assert ts[..i + 1][..i] == ts[..i];
        RunTask(doc, ts[i], bytes);
        i := i + 1;
      }
      assert ts[..i] == ts;
    }

    /** `loadArrayBufferCallback` for buffer `bid`: store it, count it, run its queued tasks
        in order, then `_checkComplete`. */
    method BufferArrived(bid: string, bytes: Bytes)
      requires Valid() && glTF.json.Some? && bid !in buffers && Covers(glTF.json.value, bid, bytes)
      modifies this
      ensures Valid() && glTF.json == old(glTF.json)
      ensures Session() == Cache.BufferArrived(old(Session()), glTF.json.value, bid, bytes)
    {
      var doc := glTF.json.value;
      ghost var s := Session();
      buffers := buffers[bid := bytes];
      tracker := tracker.(bufferLoaded := tracker.bufferLoaded + 1);
      assert Session() == Arrive(s, bid, bytes);
      BufferArrivedKeepsInv(s, doc, bid, bytes);
      RunQueue(doc, bid, TasksOf(bufferTasks, bid), bytes);
      CheckComplete();
    }

    /** `loadGLTF(uri, callback)` up to the JSON fetch: `_init`, a new `glTFModel`, the base
        uri, and the fetch of the document. */
    method LoadGLTF(uri: string)
      modifies this
      ensures Valid() && glTF.json.None?
      ensures Session() == Fresh(uri)
    {
      Init();
      glTF := GltfModel(None, Some(""), map[], map[], [], map[], map[]);
      baseUri := GetBaseUri(uri);
      requests := [Request(JsonResource, uri)];
    }

    /** `loadImageCallback(img, iid)`. */
    method ImageArrived(iid: string, img: Image)
      requires Valid() && glTF.json.Some?
      modifies this
      ensures Valid() && glTF.json == old(glTF.json)
      ensures Session() == Arrivals.ImageArrived(old(Session()), iid, img)
    {
      ghost var s := Session();
      tracker := tracker.(imageLoaded := tracker.imageLoaded + 1);
      glTF := glTF.(images := glTF.images[iid := img]);
      assert Session() == StoreImage(s, iid, img);
      CheckComplete();
      ImageArrivedKeepsInv(glTF.json.value, s, iid, img);
    }

    /** `loadVertexShaderFileCallback` (`stage == VertexStage`) and
        `loadFragmentShaderFileCallback` (`stage == FragmentStage`) for program `pid`. */
    method ShaderArrived(pid: string, stage: Stage, text: string)
      requires Valid() && glTF.json.Some? && pid in glTF.programs
      modifies this
      ensures Valid() && glTF.json == old(glTF.json)
      ensures Session() == Arrivals.ShaderArrived(old(Session()), pid, stage, text)
    {
      ghost var s := Session();
      tracker := tracker.(shaderLoaded := tracker.shaderLoaded + 1);
      var p := glTF.programs[pid];
      var other: Option<string>;
      if stage == VertexStage {
        glTF := glTF.(programs := glTF.programs[pid := p.(vertexShader := Some(text))]);
        other := p.fragmentShader;
      } else {
        glTF := glTF.(programs := glTF.programs[pid := p.(fragmentShader := Some(text))]);
        other := p.vertexShader;
      }
      assert Session() == StoreShader(s, pid, stage, text);
      if other.Some? && other.value != "" {
        glTF := glTF.(programs := glTF.programs[pid := glTF.programs[pid].(linked := true)]);
        CheckComplete();
      }
      ShaderArrivedKeepsInv(glTF.json.value, s, pid, stage, text);
    }

    /** The buffer loop of the JSON callback: count and fetch every buffer of the document. */
    method RequestBuffers(entries: seq<(string, string)>)
      modifies this
      ensures Session() == RequestEach(old(Session()), BufferResource, entries)
      ensures glTF == old(glTF)
    {
      ghost var s := Session();
      for i := 0 to |entries|
        invariant Session() == RequestEach(s, BufferResource, entries[..i]) && glTF == old(glTF)
      {
        RequestEachSnoc(s, BufferResource, entries[..i], entries[i]);
        assert entries[..i + 1] == entries[..i] + [entries[i]];
        tracker := tracker.(bufferRequested := tracker.bufferRequested + 1);
        requests := requests + [Request(BufferResource, baseUri + entries[i].1)];
      }
      assert entries[..|entries|] == entries;
    }

    /** The image loop of the JSON callback: count and fetch every image of the document. */
    method RequestImages(entries: seq<(string, string)>)
      modifies this
      ensures Session() == RequestEach(old(Session()), ImageResource, entries)
      ensures glTF == old(glTF)
    {
      ghost var s := Session();
      for i := 0 to |entries|
        invariant Session() == RequestEach(s, ImageResource, entries[..i]) && glTF == old(glTF)
      {
        RequestEachSnoc(s, ImageResource, entries[..i], entries[i]);
        assert entries[..i + 1] == entries[..i] + [entries[i]];
        tracker := tracker.(imageRequested := tracker.imageRequested + 1);
        requests := requests + [Request(ImageResource, baseUri + entries[i].1)];
      }
      assert entries[..|entries|] == entries;
    }

    /** The program loop of the JSON callback: an empty program entry, and the two shader
        texts counted and fetched, per program. */
    method RequestPrograms(shaders: map<string, string>, progs: seq<(string, Program)>)
      requires forall i :: 0 <= i < |progs| ==> progs[i].1.vertexShader in shaders && progs[i].1.fragmentShader in shaders
      modifies this
      ensures Session() == Arrivals.RequestPrograms(old(Session()), shaders, progs)
      ensures glTF.json == old(glTF.json)
    {
      ghost var s := Session();
      for i := 0 to |progs|
        invariant Session() == Arrivals.RequestPrograms(s, shaders, progs[..i]) && glTF.json == old(glTF.json)
      {
        RequestProgramsSnoc(s, shaders, progs[..i], progs[i]);
        assert progs[..i + 1] == progs[..i] + [progs[i]];
        var program := progs[i].1;
        glTF := glTF.(programs := glTF.programs[progs[i].0 := ProgramState(None, None, false)]);
        tracker := tracker.(shaderRequested := tracker.shaderRequested + 2);
        requests := requests + [Request(ShaderResource, baseUri + shaders[program.vertexShader]),
                                Request(ShaderResource, baseUri + shaders[program.fragmentShader])];
      }
      assert progs[..|progs|] == progs;
    }

    // ----- The scene walk -----

    /** `_parseIndices(json, primitive, newPrimitive)` for the primitive at `pi`. */
    method ParseIndices(doc: Doc, pd: PrimitiveDef, pi: nat)
      requires Inv(doc, Session()) && pi < |glTF.prims| && HasIndices(pd) && IndicesOk(doc, pd)
      modifies this
      ensures Session() == Walker.ParseIndices(old(Session()), doc, pd, pi)
      ensures glTF.json == old(glTF.json)
    {
      ghost var s := Session();
      var acc := doc.accessors[pd.indices.value];
      var p := glTF.prims[pi];
      glTF := glTF.(prims := glTF.prims[pi := p.(mode := ModeOr4(pd.mode), indicesComponentType := acc.componentType)]);
      assert Session() == WithPrim(s, pi, IndexHeader(doc, pd, p));
      GetBufferViewData(doc, acc.bufferView, FillIndices(pi, acc));
    }

    /** `_parseAttributes(json, primitive, newPrimitive, matrix)` for the primitive at `pi`. */
    method ParseAttributes(doc: Doc, pd: PrimitiveDef, pi: nat, m: Mat4)
      requires Inv(doc, Session()) && pi < |glTF.prims| && AttributesOk(doc, pd)
      modifies this
      ensures Session() == Walker.ParseAttributes(old(Session()), doc, pd, pi, m)
      ensures glTF.json == old(glTF.json)
    {
      var first := doc.accessors[pd.attributes[0].1];
      var byteLength := doc.bufferViews[first.bufferView].byteLength;
      VertexViewFits(byteLength, first.componentType, byteLength);
      GetBufferViewData(doc, first.bufferView, VertexTarget(doc, pd, pi, m));
    }

    /** One pass of the primitive loop of `_parseNode`, for the mesh created last in scene
        `sid` and the node matrix `m`. */
    method ParsePrimitive(doc: Doc, pd: PrimitiveDef, sid: string, m: Mat4)
      requires Inv(doc, Session()) && PrimitiveOk(doc, pd) && sid in glTF.scenes && |glTF.scenes[sid]| > 0
      modifies this
      ensures Session() == Walker.ParsePrimitive(old(Session()), doc, pd, sid, m)
      ensures glTF.json == old(glTF.json)
    {
      ghost var s := Session();
      var pi := |glTF.prims|;
      glTF := glTF.(prims := glTF.prims + [NewPrimitive()], scenes := glTF.scenes[sid := PushPrimitives(glTF.scenes[sid], [pi])]);
      assert Session() == AddPrimitive(s, sid);
      AddPrimitiveKeepsInv(doc, s, sid);
      if pd.indices.Some? && pd.indices.value != "" {
        ParseIndices(doc, pd, pi);
      }
      assert Session() == IndicesIfTruthy(AddPrimitive(s, sid), doc, pd, pi);
      IndicesIfTruthyEffect(AddPrimitive(s, sid), doc, pd, pi);
      ParseAttributes(doc, pd, pi, m);
      SetMaterial(doc, pd, pi);
    }

    /** `_parseNode(json, nodeID, newScene, matrix)` for node `n` of scene `sid`: its matrix,
        its meshes, then its children under its matrix. `rank` witnesses that the walk ends. */
    method ParseNode(doc: Doc, ghost rank: map<string, nat>, n: string, sid: string, parent: Mat4)
      requires Inv(doc, Session()) && NodesOk(doc, rank) && n in doc.nodes && sid in glTF.scenes
      requires SceneBuilt(doc, glTF.prims, glTF.scenes[sid])
      modifies this
      ensures Inv(doc, Session()) && glTF.json == old(glTF.json)
      ensures NodeWalked(doc, rank, n, sid, parent, old(Session()), Session())
      ensures SceneBuilt(doc, glTF.prims, glTF.scenes[sid])
      decreases rank[n], 1
    {
      ghost var s := Session();
      var node := doc.nodes[n];
      var cur := NodeLocal(node.transform, parent);
      glTF := glTF.(nodeMatrix := glTF.nodeMatrix[n := cur]);
      assert Session() == SetNodeMatrix(s, n, cur);
      SetNodeMatrixKeepsInv(doc, s, n, cur);
      ParseMeshes(doc, node.meshes, sid, cur);
      ghost var s2 := Session();
      ParseChildren(doc, rank, n, sid, cur);
      NodeDone(doc, rank, n, sid, parent, s, s2, Session());
    }

    /** The mesh loop of `_parseNode`: one mesh per id, in order, under the node matrix `m`. */
    method ParseMeshes(doc: Doc, meshIds: seq<string>, sid: string, m: Mat4)
      requires Inv(doc, Session()) && sid in glTF.scenes && SceneBuilt(doc, glTF.prims, glTF.scenes[sid])
      requires forall k :: 0 <= k < |meshIds| ==> MeshOk(doc, meshIds[k])
      modifies this
      ensures Inv(doc, Session()) && glTF.json == old(glTF.json)
      ensures MeshesSoFar(doc, old(Session()), Session(), sid, meshIds, |meshIds|)
    {
      ghost var s := Session();
      MeshesStart(doc, s, sid, meshIds);
      for k := 0 to |meshIds|
        invariant Inv(doc, Session()) && glTF.json == old(glTF.json)
        invariant MeshesSoFar(doc, s, Session(), sid, meshIds, k)
      {
        ghost var t := Session();
        ParseMesh(doc, meshIds[k], sid, m);
        MeshesStep(doc, s, t, Session(), sid, meshIds, k);
      }
    }

    /** The children loop of `_parseNode` for node `n`: each child walked, in order, under the
        node matrix `cur`. */
    method ParseChildren(doc: Doc, ghost rank: map<string, nat>, n: string, sid: string, cur: Mat4)
      requires Inv(doc, Session()) && NodesOk(doc, rank) && n in doc.nodes && sid in glTF.scenes
      requires SceneBuilt(doc, glTF.prims, glTF.scenes[sid])
      modifies this
      ensures Inv(doc, Session()) && glTF.json == old(glTF.json)
      ensures ChildrenSoFar(doc, rank, n, old(Session()), Session(), sid, |doc.nodes[n].children|)
      decreases rank[n], 0
    {
      ghost var s := Session();
      var children := doc.nodes[n].children;
      ChildrenStart(doc, rank, n, s, sid);
      for c := 0 to |children|
        invariant Inv(doc, Session()) && glTF.json == old(glTF.json)
        invariant ChildrenSoFar(doc, rank, n, s, Session(), sid, c)
      {
        ghost var t := Session();
        ParseNode(doc, rank, children[c], sid, cur);
        ChildrenStep(doc, rank, n, s, t, Session(), sid, cur, c);
      }
    }

    /** One pass of the mesh loop of `_parseNode`: a `new Mesh()` for `meshId` pushed onto
        scene `sid`, then one primitive per primitive of the mesh definition. */
    method ParseMesh(doc: Doc, meshId: string, sid: string, m: Mat4)
      requires Inv(doc, Session()) && MeshOk(doc, meshId) && sid in glTF.scenes
      modifies this
      ensures Inv(doc, Session()) && glTF.json == old(glTF.json)
      ensures MeshSoFar(doc, old(Session()), Session(), sid, meshId, |doc.meshes[meshId].primitives|)
      ensures MeshBuilt(doc, glTF.prims, Mesh(meshId, Range(|old(glTF.prims)|, |glTF.prims|)))
    {
      ghost var s := Session();
      glTF := glTF.(scenes := glTF.scenes[sid := glTF.scenes[sid] + [Mesh(meshId, [])]]);
      assert Session() == StartMesh(s, sid, meshId);
      MeshStart(doc, s, sid, meshId);
      StartMeshKeepsInv(doc, s, sid, meshId);
      var pds := doc.meshes[meshId].primitives;
      for p := 0 to |pds|
        invariant Inv(doc, Session()) && glTF.json == old(glTF.json)
        invariant MeshSoFar(doc, s, Session(), sid, meshId, p)
      {
        MeshStep(doc, s, Session(), sid, meshId, m, p);
        ParsePrimitive(doc, pds[p], sid, m);
      }
      MeshDone(doc, s, Session(), sid, meshId);
    }

    /** `newPrimitive.material = json.materials[primitive.material]`, then its technique if
        `material.technique` is truthy. */
    method SetMaterial(doc: Doc, pd: PrimitiveDef, pi: nat)
      requires pi < |glTF.prims| && pd.material in doc.materials
      modifies this
      ensures Session() == WithPrim(old(Session()), pi, Walker.SetMaterial(doc, pd, old(glTF.prims[pi])))
      ensures glTF.json == old(glTF.json)
    {
      var mat := doc.materials[pd.material];
      var q := glTF.prims[pi].(material := Some(mat));
      if mat.technique.Some? && mat.technique.value != "" {
        q := q.(technique := TechniqueLookup(doc, mat.technique.value));
      }
      glTF := glTF.(prims := glTF.prims[pi := q]);
    }
  

    /** `_parseGLTF(json)`: store the document and its default scene, walk every scene, then
        `_parseDone = true` and `_checkComplete`. */
    method ParseGLTF(doc: Doc, ghost rank: map<string, nat>)
      requires Valid() && glTF.json.None? && WF(doc, rank)
      modifies this
      ensures Valid() && glTF.json == Some(doc)
      ensures Parsed(doc, rank, old(Session()), Session())
    {
      ghost var s := Session();
      glTF := glTF.(json := Some(doc), defaultScene := doc.scene);
      InvEmpty(doc, Session());
      assert Session() == s.(defaultScene := doc.scene);
      ParseScenes(doc, rank);
      ghost var w := Session();
      tracker := tracker.(parseDone := true);
      CheckComplete();
      ParseDone(doc, rank, s, w);
    }

    /** The scene loop of `_parseGLTF`: a `new Scene()` per scene, then its root nodes walked
        in order under no parent matrix. */
    method ParseScenes(doc: Doc, ghost rank: map<string, nat>)
      requires Inv(doc, Session()) && WF(doc, rank)
      modifies this
      ensures Inv(doc, Session()) && glTF.json == old(glTF.json)
      ensures ScenesSoFar(doc, rank, old(Session()), Session(), |doc.scenes|)
    {
      ghost var s := Session();
      ScenesStart(doc, rank, s);
      for k := 0 to |doc.scenes|
        invariant Inv(doc, Session()) && glTF.json == old(glTF.json)
        invariant ScenesSoFar(doc, rank, s, Session(), k)
      {
        ghost var t := Session();
        var sid := doc.scenes[k].0;
        glTF := glTF.(scenes := glTF.scenes[sid := []]);
        assert Session() == NewScene(t, sid);
        NewSceneKeepsInv(doc, t, sid);
        ParseRoots(doc, rank, sid, doc.scenes[k].1);
        ScenesStep(doc, rank, s, t, Session(), k);
      }
    }

    /** The node loop of `_parseGLTF` for scene `sid`: `_parseNode` on each root, in order. */
    method ParseRoots(doc: Doc, ghost rank: map<string, nat>, sid: string, roots: seq<string>)
      requires Inv(doc, Session()) && NodesOk(doc, rank) && forall i :: 0 <= i < |roots| ==> roots[i] in doc.nodes
      requires sid in glTF.scenes && SceneBuilt(doc, glTF.prims, glTF.scenes[sid])
      modifies this
      ensures Inv(doc, Session()) && glTF.json == old(glTF.json)
      ensures RootsSoFar(doc, rank, old(Session()), Session(), sid, roots, |roots|)
    {
      ghost var s := Session();
      RootsStart(doc, rank, s, sid, roots);
      for k := 0 to |roots|
        invariant Inv(doc, Session()) && glTF.json == old(glTF.json)
        invariant RootsSoFar(doc, rank, s, Session(), sid, roots, k)
      {
        ghost var t := Session();
        ParseNode(doc, rank, roots[k], sid, Identity);
        RootsStep(doc, rank, s, t, Session(), sid, roots, k);
      }
    }

    /** The JSON callback of `loadGLTF`: count and fetch every buffer, image and shader text,
        create the program entries, then `_parseGLTF`. */
    method JsonArrived(doc: Doc, ghost rank: map<string, nat>)
      requires Valid() && glTF.json.None? && ShadersKnown(doc) && WF(doc, rank)
      modifies this
      ensures Valid() && glTF.json == Some(doc)
      ensures Parsed(doc, rank, Launch(old(Session()), doc), Session())
    {
      ghost var s := Session();
      RequestBuffers(doc.buffers);
      RequestEachEffect(s, BufferResource, doc.buffers);
      ghost var s1 := Session();
      RequestImages(doc.images);
      RequestEachEffect(s1, ImageResource, doc.images);
      ghost var s2 := Session();
      RequestPrograms(doc.shaders, doc.programs);
      RequestProgramsEffect(s2, doc.shaders, doc.programs);
      ParseGLTF(doc, rank);
    }
  }
}
