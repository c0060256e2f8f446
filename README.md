# minimal-gltf-loader: a Dafny model of the glTF 1.0 loader core

This project models `lib/minimal-gltf-loader.js`, the loader for Khronos glTF 1.0 assets.

The loader is a single-threaded state machine driven by callbacks:

- `loadGLTF` resets the loader, creates a fresh `glTFModel` and fetches the JSON document.
- The JSON callback counts and fetches every buffer, image and shader text, and creates an empty entry per program.
- `_parseGLTF` then walks every scene depth-first and builds one `Mesh` per node occurrence and mesh reference.
  Each `Primitive` gets its mode, index type, material and technique at once.
  Its index array, vertex buffer, attribute records and matrix are filled by bufferView callbacks.
- `_getBufferViewData` serves those callbacks.
  - It keeps a memo of byte slices per bufferView (`_bufferViews`).
  - When the underlying buffer has not arrived, it queues the callback on a per-buffer wait-list (`_bufferTasks`) and counts it in `_pendingTasks`.
- When a buffer arrives, every queued task for it runs in FIFO order. Each task counts itself in `_finishedPendingTasks`.
- `_checkComplete` raises `_loadDone` once every requested buffer, shader and image has arrived.
  It calls `onload` on every call where loading is done, parsing is done and no deferred task is outstanding.

## How the model is built

- **`Loader.GltfLoader` is a class** whose fields the methods update in place, as the source's loader object does.
  - The ten counters and the two flags are one field, `tracker`, of the value type `Tracker.Tracker`.
  - The `glTFModel` is one field, `glTF`, of the value type `Loader.GltfModel`; `loadGLTF` replaces it wholesale, as the source does.
  - `tracker` also counts the `onload` invocations (`onloadCalls`).
  - A ghost field `requests` logs every fetch issued, in order.
- **Each method is proved against a function on values.**
  - `Session()` projects the object onto a `Model.State` value.
  - Each method's `ensures` ties the new state to a function of the old one (`Cache.GetBufferView`, `Cache.BufferArrived`, `Arrivals.ShaderArrived`, …).
  - The properties the source promises are proved about those functions as lemmas.
  - For the scene walk, each loop has a predicate saying what its first passes did (`Walker.MeshSoFar`, `Walker.ChildrenSoFar`, `Walker.RootsSoFar`, `Walker.ScenesSoFar`) and a step lemma. The methods keep these predicates as loop invariants.
  - Above the single mesh, these predicates share `Walker.Grew`: the scene gained mesh instances with the expected mesh ids, and (`Walker.OwnsNew`) those instances list exactly the primitives created meanwhile, each once and in creation order. So every `new Mesh()` occurrence owns fresh primitives, and no two occurrences share one. At the end of `_parseGLTF`, the scenes in document order list exactly the primitives created by the walk (`Walker.ScenePrims`).
- **Continuations are data.** A callback handed to `_getBufferViewData` is a `Model.Target`:
  - `FillIndices(prim, accessor)` for `_parseIndices`;
  - `FillVertices(prim, firstAccessor, byteLength, attributes, matrix)` for `_parseAttributes`.

  A queued task is a `Model.Task(viewId, view, target)`.
- **Primitives live in an arena**, the sequence `prims`. A `Mesh` lists indices into it, which plays the part of the JS object identity that lets a later callback fill a primitive already pushed onto a mesh.
- **Matrices are symbolic terms** (`Matrix.Mat4`: `Identity`, `FromArray`, `FromRotationTranslation`, `Scaling`, `Mul`), so the structure of each composition can be checked with no arithmetic.
- **Typed arrays are descriptors** `(kind, buffer, byteOffset, length)`. Unsigned 16-bit views, the type of index arrays, get a little-endian decode with a round-trip proof.
- **The session invariant `Model.Inv`** ties the cache to the document:
  - memo entries have their view's length;
  - arrived buffers cover their views;
  - queued tasks are well formed;
  - `_pendingTasks` equals `_finishedPendingTasks` plus the tasks still queued on buffers that have not arrived.

  The conditions under which a JS typed-array constructor would throw a `RangeError` are preconditions, and this invariant discharges them.

## Model

| member | source | states |
|---|---|---|
| `Typed.ComponentType2ByteSize` | lib/minimal-gltf-loader.js:525-531 | a byte size exists exactly for 5120, 5121, 5122, 5123 and 5126 (none for 5124/5125), and it is 1, 2 or 4 |
| `Typed.Type2NumOfComponent` | lib/minimal-gltf-loader.js:533-541 | a component count exists exactly for SCALAR, VEC2-4 and MAT2-4, and it lies in 1..16 |
| `Typed.KindOf` | lib/minimal-gltf-loader.js:559-568 | a typed-array kind exists exactly for the codes 5122..5126; 5120 and 5121 fall to the default |
| `Typed.TablesAgree` | lib/minimal-gltf-loader.js:525-568 | the byte-size table and the switch agree on every code both know; 5120/5121 have a size but no array, 5124/5125 an array but no size |
| `Typed.ArrayBuffer2TypedArray` | lib/minimal-gltf-loader.js:559-569 | `null` exactly for the codes outside 5122..5126; otherwise a view of that kind on the given buffer, offset and length that fits the buffer; on `undefined` data, an empty view |
| `Typed.GetAccessorData` | lib/minimal-gltf-loader.js:571-578 | a view at the accessor's byte offset with `count * Type2NumOfComponent[type]` elements, `null` for the codes the switch does not know |
| `Typed.VertexViewFits` | lib/minimal-gltf-loader.js:328-334 | the vertex buffer `byteLength / ComponentType2ByteSize[type]` elements long, at offset 0, always fits its view, so the constructor cannot throw |
| `Typed.Slice` | lib/minimal-gltf-loader.js:113 | `ArrayBuffer.slice` clamps both ends to the buffer; within bounds it is the sub-sequence |
| `Typed.Uint16Elements` | lib/minimal-gltf-loader.js:563 | a `Uint16Array` has one element per little-endian byte pair of its view, each below 65536 |
| `Typed.Uint16RoundTrip` | lib/minimal-gltf-loader.js:563 | decoding the little-endian encoding of 16-bit values gives the values back |
| `Tracker.Initial` | lib/minimal-gltf-loader.js:78-101 | `_init` leaves both flags down, no `onload` call, every request/arrival pair and the task pair equal |
| `Tracker.CheckComplete` | lib/minimal-gltf-loader.js:157-169 | `_loadDone` afterwards iff it was up or all three request/arrival pairs are equal; `onload` invoked once iff the result is loaded, parsed and has no outstanding task; nothing else changes |
| `Tracker.FiresExactlyWhen` | lib/minimal-gltf-loader.js:157-169 | a check fires `onload` iff parsing is done, the task counters are equal and loading is done or the resources balance |
| `Tracker.FiresOnEveryReadyCheck` | lib/minimal-gltf-loader.js:165-167 | no fired-once guard: a second check after a firing one fires again (two calls in all) |
| `BaseUri.LastIndexOf` | lib/minimal-gltf-loader.js:585 | `lastIndexOf` returns -1 or an index holding the character, with no occurrence after it |
| `BaseUri.GetBaseUri` | lib/minimal-gltf-loader.js:580-591 | the base is a prefix of the uri, is empty or ends in `/`, and the rest of the uri has no `/` |
| `BaseUri.GetBaseUriLongest` | lib/minimal-gltf-loader.js:585-588 | every non-empty prefix ending in `/` is no longer than the base (the base cuts at the last `/`) |
| `BaseUri.GetBaseUriIdempotent` | lib/minimal-gltf-loader.js:580-591 | the base of the base is the base |
| `Model.AddAttributes` | lib/minimal-gltf-loader.js:336-396 | reference definition with no contract of its own: one record per attribute, in order; its properties are the ensures of `Model.AddAttributesRecords` |
| `Model.AddAttributesRecords` | lib/minimal-gltf-loader.js:336-396 | after the attribute loop every attribute name has a record, the last accessor of a name decides its record `{size, type, stride, offset}`, and records of other names are kept |
| `Model.Fill` | lib/minimal-gltf-loader.js:303-399 | a bufferView callback changes only the filled parts of a primitive: mode, index type, material and technique are kept |
| `Model.Callback` | lib/minimal-gltf-loader.js:303-399 | a callback fills exactly its primitive, then runs `_checkComplete`; cache, queues and everything else are untouched |
| `Cache.ViewSlice` | lib/minimal-gltf-loader.js:113 | a view's slice of a covering buffer is `buffer[byteOffset .. byteOffset + byteLength)`, of length `byteLength` |
| `Cache.GetBufferView` | lib/minimal-gltf-loader.js:104-152 | no branch touches the buffers, the scenes, the node matrices, the programs, the images, the fetch log or any primitive's header |
| `Cache.GetBufferViewHit` | lib/minimal-gltf-loader.js:146-151 | on a cached view the callback gets the cached bytes at once; memo and queues unchanged, no task counted |
| `Cache.GetBufferViewMissLoaded` | lib/minimal-gltf-loader.js:108-114 | on a miss with the buffer present the memo gains the slice, but the callback receives the stale `undefined`; queues and task counters unchanged |
| `Cache.GetBufferViewMissQueued` | lib/minimal-gltf-loader.js:115-144 | on a miss with the buffer absent exactly one task goes to the end of that buffer's list (created if missing), `_pendingTasks` grows by one, no callback runs, memo and primitives unchanged |
| `Cache.RunTask` | lib/minimal-gltf-loader.js:126-143 | a queued task stores the slice only when the view is still uncached (first writer wins) |
| `Cache.RunTaskEffect` | lib/minimal-gltf-loader.js:129-135 | a task bumps `_finishedPendingTasks` once and hands the memo's value, not necessarily its own slice, to its callback |
| `Cache.MemoAfter` | lib/minimal-gltf-loader.js:129-133 | reference definition with no contract of its own: the memo after a list of tasks ran; its properties are the ensures of `Cache.MemoAfterKeeps`, `Cache.MemoAfterFirst` and `Cache.MemoAfterAbsent` |
| `Cache.RunTasks` | lib/minimal-gltf-loader.js:435-439 | running a list of tasks leaves the memo as `MemoAfter` describes |
| `Cache.RunTasksFrame` | lib/minimal-gltf-loader.js:435-439 | the task loop leaves the queues in place (never cleared), changes no request/arrival counter, and counts one finished task per task |
| `Cache.MemoAfterKeeps` | lib/minimal-gltf-loader.js:129-133 | cached views are never overwritten by later tasks, and every task's view is cached afterwards |
| `Cache.MemoAfterFirst` | lib/minimal-gltf-loader.js:129-133 | the first task on an uncached view decides its cached bytes |
| `Cache.MemoAfterAbsent` | lib/minimal-gltf-loader.js:129-133 | a view no task names stays uncached |
| `Cache.BufferArrived` | lib/minimal-gltf-loader.js:431-443 | the buffer arrival keeps the memo sized to the document |
| `Cache.Arrive` | lib/minimal-gltf-loader.js:433-434 | reference definition with no contract of its own: store the buffer and count it loaded; its effect is part of the ensures of `Cache.BufferArrivedEffect` |
| `Cache.BufferArrivedEffect` | lib/minimal-gltf-loader.js:431-443 | the buffer is stored, `_bufferLoaded` grows by one, its queue stays, and one finished task is counted per queued task |
| `Cache.BufferArrivedKeepsViews` | lib/minimal-gltf-loader.js:129-133 | an arrival never changes a view that was already cached |
| `Cache.OutstandingQueue` | lib/minimal-gltf-loader.js:119-126 | queueing a task on a buffer that has not arrived adds exactly one outstanding task |
| `Cache.OutstandingArrive` | lib/minimal-gltf-loader.js:433-439 | an arrival retires exactly the tasks queued on that buffer |
| `Cache.GetBufferViewKeepsInv` | lib/minimal-gltf-loader.js:104-152 | `_getBufferViewData` keeps the session invariant (memo sizes, buffer cover, task shape, pending balance) |
| `Cache.BufferArrivedKeepsInv` | lib/minimal-gltf-loader.js:431-443 | a first arrival of a buffer keeps the session invariant |
| `Cache.AllQueuesDrained` | lib/minimal-gltf-loader.js:119-135 | once every buffer with a queue has arrived, `_pendingTasks == _finishedPendingTasks` |
| `Arrivals.Fresh` | lib/minimal-gltf-loader.js:409-425 | `loadGLTF` leaves the initial counters, the base uri of the uri, no primitive, no scene, and one fetch, of the document |
| `Arrivals.Fetches` | lib/minimal-gltf-loader.js:446-451 | one fetch per entry, in key order, each of the base uri followed by the entry's uri |
| `Arrivals.ShaderFetches` | lib/minimal-gltf-loader.js:505-509 | two fetches per program, its vertex shader's uri then its fragment shader's, under the base uri |
| `Arrivals.NewProgramsEntries` | lib/minimal-gltf-loader.js:498-504 | after the program loop every program id has an empty entry, other entries are kept, and the ids are exactly the old ones plus the programs' |
| `Arrivals.RequestEachEffect` | lib/minimal-gltf-loader.js:446-471 | the buffer (image) loop counts one request per entry and logs the fetches in order; nothing else changes |
| `Arrivals.RequestProgramsEffect` | lib/minimal-gltf-loader.js:498-511 | the program loop counts two shader requests per program, creates the entries and logs the fetches in order |
| `Arrivals.LaunchCounts` | lib/minimal-gltf-loader.js:446-511 | the JSON callback counts each buffer and image once and each program twice, logs the fetches in loop order, and the fetch log grows by exactly the requests counted |
| `Arrivals.RequestEach` | lib/minimal-gltf-loader.js:446-472 | reference definition with no contract of its own: the buffer or image loop, one counted and logged fetch per pass; its properties are the ensures of `Arrivals.RequestEachEffect` |
| `Arrivals.RequestPrograms` | lib/minimal-gltf-loader.js:498-511 | reference definition with no contract of its own: the program loop, pass by pass; its properties are the ensures of `Arrivals.RequestProgramsEffect` |
| `Arrivals.Launch` | lib/minimal-gltf-loader.js:446-511 | reference definition with no contract of its own: the buffer, image and program loops in that order; its properties are the ensures of `Arrivals.LaunchCounts` |
| `Arrivals.ImageArrived` | lib/minimal-gltf-loader.js:459-463 | reference definition with no contract of its own: count, store, `_checkComplete`; its properties are the ensures of `Arrivals.ImageArrivedEffect` |
| `Arrivals.ShaderArrived` | lib/minimal-gltf-loader.js:479-496 | reference definition with no contract of its own: count and store the text, link and check only if the other stage is truthy; its properties are the ensures of `Arrivals.ShaderArrivedStores` and `Arrivals.ShaderArrivedCounts` |
| `Arrivals.ImageArrivedEffect` | lib/minimal-gltf-loader.js:459-463 | the image is stored under its id, `_imageLoaded` grows by one, `_checkComplete` runs, nothing else changes |
| `Arrivals.ShaderArrivedStores` | lib/minimal-gltf-loader.js:479-496 | a shader text is stored in its stage; the program is linked iff it was or the other stage's text is truthy; other programs are kept |
| `Arrivals.ShaderArrivedCounts` | lib/minimal-gltf-loader.js:479-496 | `_shaderLoaded` grows by one, and `_checkComplete` runs only when the other stage's text is truthy |
| `Arrivals.BothStagesLink` | lib/minimal-gltf-loader.js:479-496 | two non-empty texts arriving in either order link the program and check completion once, at the second |
| `Arrivals.EmptyStageNeverLinks` | lib/minimal-gltf-loader.js:482-486 | after an empty first text the second never links or checks completion; a property of the callbacks alone, since `_loadShaderFile` (lines 633-635) calls them only with a truthy response |
| `Arrivals.ImageArrivedKeepsInv` | lib/minimal-gltf-loader.js:459-463 | an image arrival keeps the session invariant |
| `Arrivals.ShaderArrivedKeepsInv` | lib/minimal-gltf-loader.js:479-496 | a shader arrival keeps the session invariant |
| `Walker.ModeOr4` | lib/minimal-gltf-loader.js:299 | `primitive.mode \|\| 4` is never 0: a non-zero mode is kept, an absent or zero one becomes the `new Primitive()` default 4 |
| `Walker.ExpectedHeader` | lib/minimal-gltf-loader.js:21-47 | the header a definition determines has a non-zero mode and its material; without truthy indices, mode and index type keep the `new Primitive()` defaults 4 and 5123; a technique only comes from a truthy `material.technique` |
| `Walker.NodeLocal` | lib/minimal-gltf-loader.js:211-233 | a matrix node's matrix is `parent * matrix`; a TRS node's is its TRS matrix, the same under every parent |
| `Walker.VertexTarget` | lib/minimal-gltf-loader.js:320-336 | the vertex callback's target fills the given primitive with the view of the first attribute, records every attribute's accessor, carries the node matrix, and its vertex array fits the whole view |
| `Walker.ParseIndices` | lib/minimal-gltf-loader.js:294-307 | reference definition with no contract of its own: writes mode and index type, then asks for the index view; its properties are the ensures of `Walker.ParseIndicesEffect` |
| `Walker.IndicesIfTruthy` | lib/minimal-gltf-loader.js:263-265 | reference definition with no contract of its own: `Walker.ParseIndices` only for truthy `indices`; its properties are the ensures of `Walker.IndicesIfTruthyEffect` |
| `Walker.ParseAttributes` | lib/minimal-gltf-loader.js:315-401 | reference definition with no contract of its own: asks for the first attribute's view with the `Walker.VertexTarget` callback; its properties are the ensures of `Walker.ParseAttributesEffect` |
| `Walker.ParsePrimitive` | lib/minimal-gltf-loader.js:257-278 | reference definition with no contract of its own: one pass of the primitive loop; its properties are the ensures of `Walker.ParsePrimitiveHeader`, `Walker.ParsePrimitiveKeeps` and `Walker.ParsePrimitiveFrame` |
| `Walker.ParseIndicesEffect` | lib/minimal-gltf-loader.js:294-307 | `_parseIndices` sets `mode` to `primitive.mode \|\| 4` and the index type from the accessor, keeps every other header, and keeps the invariant |
| `Walker.IndicesIfTruthyEffect` | lib/minimal-gltf-loader.js:263-265 | `if (primitive.indices)`: with falsy indices the header is untouched (mode stays 4) |
| `Walker.ParseAttributesEffect` | lib/minimal-gltf-loader.js:315-401 | `_parseAttributes` changes no header, scene or node matrix and keeps the invariant |
| `Walker.ParsePrimitiveHeader` | lib/minimal-gltf-loader.js:257-278 | one pass of the primitive loop adds one primitive whose header is the one its definition determines |
| `Walker.ParsePrimitiveKeeps` | lib/minimal-gltf-loader.js:257-278 | one pass of the primitive loop keeps the header of every earlier primitive |
| `Walker.ParsePrimitiveFrame` | lib/minimal-gltf-loader.js:258-259 | the new primitive is pushed onto the mesh created last; nothing but that scene changes shape, and the invariant is kept |
| `Walker.MeshStart` | lib/minimal-gltf-loader.js:245-251 | a `new Mesh()` with the mesh id is pushed onto the scene |
| `Walker.MeshExtend` | lib/minimal-gltf-loader.js:257-278 | a step that adds one primitive with the next definition's header and pushes its index onto the mesh created last extends that mesh by one fresh index |
| `Walker.MeshStep` | lib/minimal-gltf-loader.js:257-278 | the primitive loop after `p + 1` passes: the new mesh lists `p + 1` new primitives in document order, each built from its definition |
| `Walker.MeshDone` | lib/minimal-gltf-loader.js:245-278 | after the primitive loop the mesh lists its primitives in the order of its definition, each with the header that definition determines |
| `Walker.MeshesStart` | lib/minimal-gltf-loader.js:241-243 | before the mesh loop nothing is appended and no primitive is created |
| `Walker.MeshesStep` | lib/minimal-gltf-loader.js:241-280 | the mesh loop appends one mesh per mesh id of the node, in order, the scene stays built, and the new meshes list every primitive created, each once, in creation order |
| `Walker.ChildrenStep` | lib/minimal-gltf-loader.js:284-289 | the children loop appends each child's preorder in turn, the appended meshes own exactly the primitives created since the loop began, each once and in creation order, and only matrices of nodes ranked below the parent change |
| `Walker.NodeDone` | lib/minimal-gltf-loader.js:208-291 | `_parseNode` appends the node's preorder (its meshes, then each child's); the appended mesh occurrences own exactly the primitives created during the walk, each once and in creation order, so they are fresh and no two occurrences share one; it stores the node's local matrix (`parent * matrix`, or the TRS matrix that ignores the parent) and touches no other scene |
| `Walker.RootsStep` | lib/minimal-gltf-loader.js:186-194 | the root loop appends each root's preorder in turn, and the appended meshes own exactly the primitives created since the loop began, each once, in creation order |
| `Walker.ScenesStart` | lib/minimal-gltf-loader.js:178 | before the scene loop no scene is walked and no primitive is created |
| `Walker.ScenesStep` | lib/minimal-gltf-loader.js:178-196 | the scene loop walks each scene into a fresh scene and leaves the scenes already walked intact |
| `Walker.ScenesPrimsStep` | lib/minimal-gltf-loader.js:178-196 | the primitives of the scenes walked so far, scene after scene, are exactly those created since the scene loop began, each once and in creation order |
| `Walker.ParseDone` | lib/minimal-gltf-loader.js:172-197 | `_parseGLTF` sets the default scene and walks every scene; the scenes' mesh occurrences, scene after scene, own exactly the primitives created, each once and in creation order (fresh, pairwise disjoint); it raises `_parseDone` and fires `onload` iff the check then passes |
| `Loader.GltfLoader.constructor` | lib/minimal-gltf-loader.js:72-76 | a new loader has run `_init` and holds no model |
| `Loader.GltfLoader.Init` | lib/minimal-gltf-loader.js:78-101 | `_init` resets the counters, flags, buffers, queues and memo, and keeps the model |
| `Loader.GltfLoader.CheckComplete` | lib/minimal-gltf-loader.js:157-169 | performs exactly `Tracker.CheckComplete` on the loader |
| `Loader.GltfLoader.RunCallback` | lib/minimal-gltf-loader.js:328-399 | a callback's body, including the attribute loop, performs exactly `Model.Callback` |
| `Loader.GltfLoader.GetBufferViewData` | lib/minimal-gltf-loader.js:104-152 | performs exactly `Cache.GetBufferView` |
| `Loader.GltfLoader.RunTask` | lib/minimal-gltf-loader.js:126-143 | performs exactly `Cache.RunTask` |
| `Loader.GltfLoader.RunQueue` | lib/minimal-gltf-loader.js:435-439 | runs the queued tasks in index order, as `Cache.RunTasks` |
| `Loader.GltfLoader.BufferArrived` | lib/minimal-gltf-loader.js:431-443 | performs exactly `Cache.BufferArrived` and keeps the loader valid |
| `Loader.GltfLoader.LoadGLTF` | lib/minimal-gltf-loader.js:409-425 | leaves exactly the `Arrivals.Fresh` state, valid, with no document yet |
| `Loader.GltfLoader.ImageArrived` | lib/minimal-gltf-loader.js:459-463 | performs exactly `Arrivals.ImageArrived` and keeps the loader valid |
| `Loader.GltfLoader.ShaderArrived` | lib/minimal-gltf-loader.js:479-496 | performs exactly `Arrivals.ShaderArrived` for either stage and keeps the loader valid |
| `Loader.GltfLoader.RequestBuffers` | lib/minimal-gltf-loader.js:446-454 | performs the buffer loop, `Arrivals.RequestEach` over the buffers, and leaves the model alone |
| `Loader.GltfLoader.RequestImages` | lib/minimal-gltf-loader.js:467-472 | performs the image loop, `Arrivals.RequestEach` over the images, and leaves the model alone |
| `Loader.GltfLoader.RequestPrograms` | lib/minimal-gltf-loader.js:498-511 | performs the program loop, `Arrivals.RequestPrograms` |
| `Loader.GltfLoader.ParseIndices` | lib/minimal-gltf-loader.js:294-307 | performs exactly `Walker.ParseIndices` |
| `Loader.GltfLoader.ParseAttributes` | lib/minimal-gltf-loader.js:315-401 | performs exactly `Walker.ParseAttributes` |
| `Loader.GltfLoader.ParsePrimitive` | lib/minimal-gltf-loader.js:258-277 | performs exactly `Walker.ParsePrimitive` |
| `Loader.GltfLoader.SetMaterial` | lib/minimal-gltf-loader.js:270-276 | sets the material, and the technique only when `material.technique` is truthy |
| `Loader.GltfLoader.ParseMesh` | lib/minimal-gltf-loader.js:245-278 | pushes one mesh onto the scene whose primitives follow its definition in order, each with the header it determines, and keeps the invariant |
| `Loader.GltfLoader.ParseMeshes` | lib/minimal-gltf-loader.js:241-280 | appends one built mesh per mesh id, in order, owning the new primitives each once, and changes no node matrix |
| `Loader.GltfLoader.ParseChildren` | lib/minimal-gltf-loader.js:284-289 | appends the children's preorders in order, owning the new primitives each once |
| `Loader.GltfLoader.ParseNode` | lib/minimal-gltf-loader.js:208-291 | walks node `n` as `Walker.NodeWalked` says: preorder of meshes, whose occurrences own exactly the new primitives, each once and in creation order; local matrix; no other scene touched |
| `Loader.GltfLoader.ParseRoots` | lib/minimal-gltf-loader.js:186-194 | appends the roots' preorders in order, owning the new primitives each once |
| `Loader.GltfLoader.ParseScenes` | lib/minimal-gltf-loader.js:178-196 | walks every scene of the document; the scenes, in order, own exactly the new primitives, each once |
| `Loader.GltfLoader.ParseGLTF` | lib/minimal-gltf-loader.js:172-197 | stores the document; the result is `Walker.Parsed`: every scene walked, its mesh occurrences owning fresh, pairwise-disjoint primitives, parse done, `onload` fired iff ready, no fetch or counter changed |
| `Loader.GltfLoader.JsonArrived` | lib/minimal-gltf-loader.js:425-518 | the JSON callback: the launch of `Arrivals.Launch`, then `_parseGLTF` |

## Left out

- Network and DOM I/O (`_loadJSON`, `_loadArrayBuffer`, `_loadShaderFile`, `_loadImage`). Each response is a method call carrying the resource, and every fetch issued is logged in the ghost `requests` sequence.
- `JSON.parse`: the document is given as a `Document.Doc` value. Objects the loader enumerates with `for … in` are sequences in key order. Objects it only looks up are maps. An absent `scenes`, `buffers`, `images`, `programs`, `meshes` or `indices` is an empty sequence or `None`.
- WebGL: `_createShader`, `_createProgram` and the `program` field they fill. Linking is the flag `linked`. The `gl` context and the `shaders` field of `glTFModel` are not modelled, since the loader never writes them.
- gl-matrix: the float arithmetic of `mat4.multiply`, `fromRotationTranslation` and `scale` is not modelled. Matrices are symbolic terms, and float element values are not modelled.
- The `onload` callback itself, and the choice between a given callback and the default logger, are not modelled. `onloadCalls` counts invocations; what `onload` does with the model is not modelled.
- Shared closure variables:
  - The buffer callback reads the shared loop variable `bid` (lines 429-451); once the loop is over, that is the last buffer id. The shader callbacks read the shared `newProgram` (lines 477-504); that is the last program created.
  - The model passes the buffer id (`Loader.GltfLoader.BufferArrived`) and the program id (`Loader.GltfLoader.ShaderArrived`) explicitly. So it describes the evidently intended behaviour: each arrival updates its own buffer or program.
  - In the source, with more than one buffer or program, every arrival writes into the last one.
- Runtime exceptions:
  - These conditions are preconditions (`Walker.PrimitiveOk`, `Walker.NodesOk`, `Walker.ScenesOk`, `Arrivals.ShadersKnown`, the session invariant): a typed array that does not fit its buffer, a missing accessor, view, material, node, shader or mesh, a missing `children` array, and a cyclic node graph (stack overflow).
  - `rank` is a ghost witness that the node graph is acyclic.
- Loader.GltfLoader.BufferArrived: requires that the buffer has not arrived before. A fetch delivers once, and a second delivery would run the same queue again and break the pending-task balance.
- Loader.GltfLoader.BufferArrived (and `Cache.BufferArrived`, `Model.Covers`): requires that the arrived bytes hold every view the document places on that buffer, not only the views with queued tasks. A glTF 1.0 document whose views overrun their buffer is malformed. The invariant that every cached view is as long as its `byteLength` also needs it, since `ArrayBuffer.slice` clamps a view that overruns the buffer. Such a document is not modelled.
- Loader.GltfLoader.ImageArrived, Loader.GltfLoader.ShaderArrived, Loader.GltfLoader.BufferArrived: require the document to be parsed. In the source, responses can only arrive after the JSON callback has launched them, and `_parseGLTF` runs synchronously at the end of that callback.
- Loader.GltfLoader.ParseGLTF: does not state how `_loadDone` moves during the walk. It states that parse is marked done and that `onload` fires exactly when the final check passes.
- Loader.GltfLoader.ParseNode: does not restate which matrix each vertex callback copies into its primitive. The callback target carries the node's matrix by construction (`Walker.VertexTarget`), and the copy happens when the callback runs (`Model.Fill`).
- Nodes without a transform: for a node with no `matrix`, lines 227-231 read `translation`, `rotation` and `scale` unconditionally, and a node lacking one of them throws a `TypeError`. glTF 1.0 allows such a node. `Document.Transform` is either a matrix or all three TRS parts, so the model cannot express it, and the throw is not modelled.
- Missing `techniques`: when `json.techniques` is absent and a material names a technique, line 273 throws a `TypeError`. The model reads an absent table as empty and gives the primitive no technique (`None`).
- Typed-array decoding: only `Uint16Array` (the default index type) gets an element decode. Other kinds are descriptors, and float values are not modelled.
- The commented-out vertex transformation in `_parseAttributes`, and the `stride` and `offset` values computed there, are not modelled because nothing reads them.
- Aliasing of the same node under several parents is modelled by walking it again, as the source does. A primitive's identity is its arena index.
- Concurrent loads on one loader (a second `loadGLTF` while responses of the first are pending) are not modelled.
- `loadGLTF` before any document: the loader's `glTF` starts as `null` in the source. The model starts it as an empty model whose `json` is `None`.
