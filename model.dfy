/**
 * The state of one load session (the fields of `glTFLoader` and of its `glTFModel`), the
 * primitives the scene walker creates, and the deferred tasks queued on missing buffers.
 *
 * Every `Primitive` object the loader creates lives in `State.prims`; its index there is its
 * identity, so a queued task can name the primitive it fills in later.
 */
module Model {
  import opened Wrappers
  import opened Matrix
  import opened Document
  import opened Typed
  import opened Tracker

  /** What `vertexAttribPointer` needs for one attribute. */
  datatype AttributeInfo = AttributeInfo(size: Option<nat>, componentType: int, stride: nat, offset: nat)

  datatype Primitive = Primitive(
    mode: int,
    matrix: Mat4,
    indices: Option<TypedView>,
    indicesComponentType: int,
    vertexBuffer: Option<TypedView>,
    attributes: map<string, AttributeInfo>,
    material: Option<Material>,
    technique: Option<Technique>)

  /** `new Primitive()`: TRIANGLES, identity matrix, UNSIGNED_SHORT indices, nothing decoded. */
  function NewPrimitive(): Primitive
  {
    Primitive(4, Identity, None, 5123, None, map[], None, None)
  }

  /** The fields of a primitive that only the scene walker writes; a deferred task never does. */
  datatype Header = Header(mode: int, indicesComponentType: int, material: Option<Material>, technique: Option<Technique>)

  function HeaderOf(p: Primitive): Header
  {
    Header(p.mode, p.indicesComponentType, p.material, p.technique)
  }

  predicate SameHeader(p: Primitive, q: Primitive)
  {
    HeaderOf(p) == HeaderOf(q)
  }

  /** A mesh instance: its id in the document and the primitives (indices into `prims`) it holds. */
  datatype Mesh = Mesh(meshId: string, primitives: seq<nat>)

  /**
   * The consumer a bufferView callback stands for: the closure of `_parseIndices` fills a
   * primitive's `indices`; the closure of `_parseAttributes` fills its `vertexBuffer`,
   * `matrix` and `attributes`. Each carries what its closure captured.
   */
  datatype Target =
    | FillIndices(prim: nat, accessor: Accessor)
    | FillVertices(prim: nat, first: Accessor, byteLength: nat, attributes: seq<(string, Accessor)>, matrix: Mat4)

  /** A continuation waiting in `_bufferTasks` for its buffer. */
  datatype Task = Task(viewId: string, view: BufferView, target: Target)

  datatype Image = Image(handle: nat)

  /** A program entry: the two shader texts once they arrive, and whether the GL program was
      linked (which happens when the second half arrives while the first is truthy). */
  datatype ProgramState = ProgramState(vertexShader: Option<string>, fragmentShader: Option<string>, linked: bool)

  /** JavaScript truthiness of a value that is `null`/`undefined` or a string. */
  predicate Truthy(o: Option<string>)
  {
    o.Some? && o.value != ""
  }

  /** The kinds of fetch the loader issues; each issued fetch is logged with its url. */
  datatype Resource = JsonResource | BufferResource | ImageResource | ShaderResource

  datatype Request = Request(resource: Resource, url: string)

  datatype State = State(
    tracker: Tracker,
    buffers: map<string, Bytes>,
    bufferTasks: map<string, seq<Task>>,
    bufferViews: map<string, Bytes>,
    baseUri: string,
    defaultScene: Option<string>,
    scenes: map<string, seq<Mesh>>,
    nodeMatrix: map<string, Mat4>,
    prims: seq<Primitive>,
    programs: map<string, ProgramState>,
    images: map<string, Image>,
    requests: seq<Request>)

  /** The attribute record `_parseAttributes` stores for one accessor. */
  function AttributeOf(a: Accessor): AttributeInfo
  {
    AttributeInfo(Type2NumOfComponent(a.elementType), a.componentType, a.byteStride, a.byteOffset)
  }

  /** No attribute after position `i` has the same name as the one at `i`. */
  predicate LastOfName(attrs: seq<(string, Accessor)>, i: nat)
    requires i < |attrs|
  {
    forall j :: i < j < |attrs| ==> attrs[j].0 != attrs[i].0
  }

  predicate NameAbsent(attrs: seq<(string, Accessor)>, k: string)
  {
    forall i :: 0 <= i < |attrs| ==> attrs[i].0 != k
  }

  /** The `for (attributeName in primitive.attributes)` loop: one record per attribute name. */
  function AddAttributes(m: map<string, AttributeInfo>, attrs: seq<(string, Accessor)>): map<string, AttributeInfo>
    decreases |attrs|
  {
    if attrs == [] then m
    else
      var n := |attrs| - 1;
      AddAttributes(m, attrs[..n])[attrs[n].0 := AttributeOf(attrs[n].1)]
  }

  /** Every attribute name gets the record of its last occurrence; other keys are kept. */
  lemma {:induction false} AddAttributesRecords(m: map<string, AttributeInfo>, attrs: seq<(string, Accessor)>)
    ensures m.Keys <= AddAttributes(m, attrs).Keys
    ensures forall i :: 0 <= i < |attrs| ==> attrs[i].0 in AddAttributes(m, attrs)
    ensures forall i :: 0 <= i < |attrs| && LastOfName(attrs, i) ==>
      AddAttributes(m, attrs)[attrs[i].0] == AttributeOf(attrs[i].1)
    ensures forall k :: k in m && NameAbsent(attrs, k) ==> AddAttributes(m, attrs)[k] == m[k]
    decreases |attrs|
  {
    if attrs != [] {
      var n := |attrs| - 1;
      var prefix := attrs[..n];
      AddAttributesRecords(m, prefix);
      var rest := AddAttributes(m, prefix);
      assert AddAttributes(m, attrs) == rest[attrs[n].0 := AttributeOf(attrs[n].1)];
      assert forall i :: 0 <= i < n ==> prefix[i] == attrs[i];
      forall i | 0 <= i < n && LastOfName(attrs, i)
        ensures AddAttributes(m, attrs)[attrs[i].0] == AttributeOf(attrs[i].1)
      {
        assert LastOfName(prefix, i) && attrs[i].0 != attrs[n].0;
      }
      forall k | k in m && NameAbsent(attrs, k)
        ensures AddAttributes(m, attrs)[k] == m[k]
      {
        assert NameAbsent(prefix, k) && attrs[n].0 != k;
      }
    }
  }

  /** The typed array a target builds fits view data of `n` bytes. */
  predicate FitsLength(t: Target, n: nat)
  {
    match t
    case FillIndices(_, a) => CanViewLength(n, a.byteOffset, ElementCount(a), a.componentType)
    case FillVertices(_, first, byteLength, _, _) =>
      CanViewLength(n, 0, VertexCount(byteLength, first.componentType), first.componentType)
  }

  predicate Accepts(t: Target, data: Option<Bytes>)
  {
    data.Some? ==> FitsLength(t, |data.value|)
  }

  /** The body of a bufferView callback, applied to the primitive it fills. */
  function Fill(p: Primitive, t: Target, data: Option<Bytes>): (q: Primitive)
    requires Accepts(t, data)
    ensures SameHeader(p, q)
  {
    match t
    case FillIndices(_, a) => p.(indices := GetAccessorData(data, a))
    case FillVertices(_, first, byteLength, attrs, m) =>
      var vb := ArrayBuffer2TypedArray(data, 0, VertexCount(byteLength, first.componentType), first.componentType);
      p.(vertexBuffer := vb,
         matrix := if attrs == [] then p.matrix else m,
         attributes := AddAttributes(p.attributes, attrs))
  }

  /** Everything outside the cache, the task queues, the tracker and the primitives' decoded
      data is the same in `r` as in `s`. */
  predicate Untouched(s: State, r: State)
  {
    r.buffers == s.buffers && r.baseUri == s.baseUri && r.defaultScene == s.defaultScene &&
    r.scenes == s.scenes && r.nodeMatrix == s.nodeMatrix && r.programs == s.programs &&
    r.images == s.images && r.requests == s.requests &&
    |r.prims| == |s.prims| && (forall i :: 0 <= i < |s.prims| ==> SameHeader(s.prims[i], r.prims[i]))
  }

  /** A callback run: the consumer fills its primitive, then calls `_checkComplete`. */
  function Callback(s: State, t: Target, data: Option<Bytes>): (r: State)
    requires t.prim < |s.prims| && Accepts(t, data)
    ensures Untouched(s, r) && r.bufferViews == s.bufferViews && r.bufferTasks == s.bufferTasks
    ensures r.tracker == CheckComplete(s.tracker)
    ensures r.prims == s.prims[t.prim := Fill(s.prims[t.prim], t, data)]
  {
    s.(prims := s.prims[t.prim := Fill(s.prims[t.prim], t, data)], tracker := CheckComplete(s.tracker))
  }

  /** A write to the fields of primitive `i`. */
  function WithPrim(s: State, i: nat, p: Primitive): State
    requires i < |s.prims|
  {
    s.(prims := s.prims[i := p])
  }

  /** `_checkComplete` as a step on the whole session. */
  function Checked(s: State): State
  {
    s.(tracker := CheckComplete(s.tracker))
  }

  function TasksOf(tasks: map<string, seq<Task>>, b: string): seq<Task>
  {
    if b in tasks then tasks[b] else []
  }

  // ----- The session invariant -----

  /** Every cached view is a full-length copy of its byteLength in the document. */
  ghost predicate MemoSized(doc: Doc, memo: map<string, Bytes>)
  {
    forall vid :: vid in memo ==> vid in doc.bufferViews && |memo[vid]| == doc.bufferViews[vid].byteLength
  }

  /** The bytes of buffer `b` hold every view the document places on it. */
  ghost predicate Covers(doc: Doc, b: string, bytes: Bytes)
  {
    forall vid :: vid in doc.bufferViews && doc.bufferViews[vid].buffer == b ==>
      doc.bufferViews[vid].byteOffset + doc.bufferViews[vid].byteLength <= |bytes|
  }

  ghost predicate BuffersCover(doc: Doc, buffers: map<string, Bytes>)
  {
    forall b :: b in buffers ==> Covers(doc, b, buffers[b])
  }

  /** A queued task names a view of the document on buffer `b`, a primitive that exists, and
      a consumer whose typed array fits the view. */
  ghost predicate TaskOk(doc: Doc, nprims: nat, b: string, t: Task)
  {
    t.viewId in doc.bufferViews && t.view == doc.bufferViews[t.viewId] && t.view.buffer == b &&
    t.target.prim < nprims && FitsLength(t.target, t.view.byteLength)
  }

  ghost predicate TasksOk(doc: Doc, nprims: nat, tasks: map<string, seq<Task>>)
  {
    forall b, i :: b in tasks && 0 <= i < |tasks[b]| ==> TaskOk(doc, nprims, b, tasks[b][i])
  }

  function Contribution(tasks: map<string, seq<Task>>, arrived: set<string>, b: string): nat
    requires b in tasks
  {
    if b in arrived then 0 else |tasks[b]|
  }

  /** The number of queued tasks whose buffer has not arrived yet. */
  ghost function Outstanding(tasks: map<string, seq<Task>>, arrived: set<string>): nat
    decreases tasks.Keys
  {
    if tasks == map[] then 0
    else
      var b :| b in tasks;
      Contribution(tasks, arrived, b) + Outstanding(tasks - {b}, arrived)
  }

  /** Deferred tasks are counted once when queued and once when run. */
  ghost predicate Balanced(s: State)
  {
    s.tracker.pendingTasks == s.tracker.finishedPendingTasks + Outstanding(s.bufferTasks, s.buffers.Keys)
  }

  ghost predicate Inv(doc: Doc, s: State)
  {
    MemoSized(doc, s.bufferViews) && BuffersCover(doc, s.buffers) &&
    TasksOk(doc, |s.prims|, s.bufferTasks) && Balanced(s)
  }

  /** The invariant only looks at the cache, the buffers, the queues, the task counters and
      the number of primitives; a step that keeps those (creating primitives is allowed) keeps it. */
  lemma InvFrame(doc: Doc, s: State, r: State)
    requires Inv(doc, s)
    requires r.bufferViews == s.bufferViews && r.buffers == s.buffers && r.bufferTasks == s.bufferTasks
    requires r.tracker.pendingTasks == s.tracker.pendingTasks
    requires r.tracker.finishedPendingTasks == s.tracker.finishedPendingTasks
    requires |s.prims| <= |r.prims|
    ensures Inv(doc, r)
  {
  }

  /** Before anything is cached or queued the invariant holds for any document. */
  lemma InvEmpty(doc: Doc, s: State)
    requires s.bufferViews == map[] && s.buffers == map[] && s.bufferTasks == map[]
    requires s.tracker.pendingTasks == s.tracker.finishedPendingTasks
    ensures Inv(doc, s)
  {
  }
}
