/**
 * What `loadGLTF` does besides the bufferView cache: the fresh session it starts, the fetches
 * it issues once the document is parsed (buffers, images, and two shader texts per program),
 * and the image and shader arrival handlers.
 */
module Arrivals {
  import opened Wrappers
  import opened Document
  import opened Tracker
  import opened Model
  import opened BaseUri

  /** `loadGLTF(uri)` up to the JSON fetch: `_init`, a new `glTFModel` (whose `defaultScene`
      starts as the empty string), the base uri, and the one fetch issued. */
  function Fresh(uri: string): (s: State)
    ensures s.tracker == Initial() && s.requests == [Request(JsonResource, uri)]
    ensures s.baseUri == GetBaseUri(uri) && s.prims == [] && s.scenes == map[]
  {
    State(Initial(), map[], map[], map[], GetBaseUri(uri), Some(""), map[], map[], [], map[], map[],
          [Request(JsonResource, uri)])
  }

  // ----- The fetches issued when the document arrives -----

  /** One fetch per entry, in order, of `base + uri`. */
  function Fetches(kind: Resource, base: string, entries: seq<(string, string)>): (rs: seq<Request>)
    ensures |rs| == |entries|
    ensures forall i :: 0 <= i < |entries| ==> rs[i] == Request(kind, base + entries[i].1)
    decreases |entries|
  {
    if entries == [] then []
    else
      var n := |entries| - 1;
      Fetches(kind, base, entries[..n]) + [Request(kind, base + entries[n].1)]
  }

  /** The shader ids of every program are in the document. */
  predicate ShadersKnown(doc: Doc)
  {
    forall i :: 0 <= i < |doc.programs| ==>
      doc.programs[i].1.vertexShader in doc.shaders && doc.programs[i].1.fragmentShader in doc.shaders
  }

  /** Per program, the vertex shader text then the fragment shader text. */
  function ShaderFetches(base: string, shaders: map<string, string>, progs: seq<(string, Program)>): (rs: seq<Request>)
    requires forall i :: 0 <= i < |progs| ==> progs[i].1.vertexShader in shaders && progs[i].1.fragmentShader in shaders
    ensures |rs| == 2 * |progs|
    ensures forall i :: 0 <= i < |progs| ==>
      rs[2 * i] == Request(ShaderResource, base + shaders[progs[i].1.vertexShader]) &&
      rs[2 * i + 1] == Request(ShaderResource, base + shaders[progs[i].1.fragmentShader])
    decreases |progs|
  {
    if progs == [] then []
    else
      var n := |progs| - 1;
      var p := progs[n].1;
      ShaderFetches(base, shaders, progs[..n]) +
        [Request(ShaderResource, base + shaders[p.vertexShader]), Request(ShaderResource, base + shaders[p.fragmentShader])]
  }

  /** The program entries the loop creates, each with no shader text and no GL program yet. */
  function NewPrograms(m: map<string, ProgramState>, progs: seq<(string, Program)>): map<string, ProgramState>
    decreases |progs|
  {
    if progs == [] then m
    else
      var n := |progs| - 1;
      NewPrograms(m, progs[..n])[progs[n].0 := ProgramState(None, None, false)]
  }

  /** Every program of the document gets an empty entry; every other entry is kept. */
  lemma {:induction false} NewProgramsEntries(m: map<string, ProgramState>, progs: seq<(string, Program)>)
    ensures forall i :: 0 <= i < |progs| ==>
      progs[i].0 in NewPrograms(m, progs) && NewPrograms(m, progs)[progs[i].0] == ProgramState(None, None, false)
    ensures forall k :: k in m && (forall i :: 0 <= i < |progs| ==> progs[i].0 != k) ==>
      k in NewPrograms(m, progs) && NewPrograms(m, progs)[k] == m[k]
    ensures NewPrograms(m, progs).Keys == m.Keys + set i | 0 <= i < |progs| :: progs[i].0
    decreases |progs|
  {
    if progs != [] {
      var n := |progs| - 1;
      NewProgramsEntries(m, progs[..n]);
      assert forall i :: 0 <= i < n ==> progs[..n][i] == progs[i];
      assert (set i | 0 <= i < |progs| :: progs[i].0) == (set i | 0 <= i < n :: progs[..n][i].0) + {progs[n].0};
    }
  }

  /** `t` with `n` more requests of `kind` counted (the document itself is not counted). */
  function Counted(t: Tracker, kind: Resource, n: nat): Tracker
  {
    match kind
    case JsonResource => t
    case BufferResource => t.(bufferRequested := t.bufferRequested + n)
    case ImageResource => t.(imageRequested := t.imageRequested + n)
    case ShaderResource => t.(shaderRequested := t.shaderRequested + n)
  }

  /** One pass of the buffer loop (`kind == BufferResource`) or of the image loop
      (`kind == ImageResource`): the entry is counted and fetched. */
  function RequestOne(s: State, kind: Resource, entry: (string, string)): State
  {
    s.(tracker := Counted(s.tracker, kind, 1), requests := s.requests + [Request(kind, s.baseUri + entry.1)])
  }

  /** The whole buffer or image loop, pass by pass. */
  function RequestEach(s: State, kind: Resource, entries: seq<(string, string)>): State
    decreases |entries|
  {
    if entries == [] then s
    else
      var n := |entries| - 1;
      RequestOne(RequestEach(s, kind, entries[..n]), kind, entries[n])
  }

  /** The loop counts every entry and fetches them in order, and changes nothing else. */
  lemma {:induction false} RequestEachEffect(s: State, kind: Resource, entries: seq<(string, string)>)
    ensures RequestEach(s, kind, entries) ==
      s.(tracker := Counted(s.tracker, kind, |entries|),
         requests := s.requests + Fetches(kind, s.baseUri, entries))
    decreases |entries|
  {
    if entries != [] {
      var n := |entries| - 1;
      RequestEachEffect(s, kind, entries[..n]);
    }
  }

  /** The loop over `es + [e]` is the loop over `es` followed by one more pass. */
  lemma RequestEachSnoc(s: State, kind: Resource, es: seq<(string, string)>, e: (string, string))
    ensures RequestEach(s, kind, es + [e]) == RequestOne(RequestEach(s, kind, es), kind, e)
  {
    assert (es + [e])[..|es|] == es;
  }

  /** One pass of the program loop: an empty entry for the program, its two shader texts
      counted and fetched. */
  function RequestProgram(s: State, shaders: map<string, string>, prog: (string, Program)): State
    requires prog.1.vertexShader in shaders && prog.1.fragmentShader in shaders
  {
    s.(tracker := Counted(s.tracker, ShaderResource, 2),
       programs := s.programs[prog.0 := ProgramState(None, None, false)],
       requests := s.requests + [Request(ShaderResource, s.baseUri + shaders[prog.1.vertexShader]),
                                 Request(ShaderResource, s.baseUri + shaders[prog.1.fragmentShader])])
  }

  /** The whole program loop, pass by pass. */
  function RequestPrograms(s: State, shaders: map<string, string>, progs: seq<(string, Program)>): State
    requires forall i :: 0 <= i < |progs| ==> progs[i].1.vertexShader in shaders && progs[i].1.fragmentShader in shaders
    decreases |progs|
  {
    if progs == [] then s
    else
      var n := |progs| - 1;
      RequestProgram(RequestPrograms(s, shaders, progs[..n]), shaders, progs[n])
  }

  /** The program loop creates the empty entries, counts two shaders per program and fetches
      them in order, and changes nothing else. */
  lemma {:induction false} RequestProgramsEffect(s: State, shaders: map<string, string>, progs: seq<(string, Program)>)
    requires forall i :: 0 <= i < |progs| ==> progs[i].1.vertexShader in shaders && progs[i].1.fragmentShader in shaders
    ensures RequestPrograms(s, shaders, progs) ==
      s.(tracker := Counted(s.tracker, ShaderResource, 2 * |progs|),
         programs := NewPrograms(s.programs, progs),
         requests := s.requests + ShaderFetches(s.baseUri, shaders, progs))
    decreases |progs|
  {
    if progs != [] {
      var n := |progs| - 1;
      RequestProgramsEffect(s, shaders, progs[..n]);
    }
  }

  /** The program loop over `ps + [p]` is the loop over `ps` followed by one more pass. */
  lemma RequestProgramsSnoc(s: State, shaders: map<string, string>, ps: seq<(string, Program)>, p: (string, Program))
    requires forall i :: 0 <= i < |ps| ==> ps[i].1.vertexShader in shaders && ps[i].1.fragmentShader in shaders
    requires p.1.vertexShader in shaders && p.1.fragmentShader in shaders
    ensures RequestPrograms(s, shaders, ps + [p]) == RequestProgram(RequestPrograms(s, shaders, ps), shaders, p)
  {
    assert (ps + [p])[..|ps|] == ps;
  }

  /** The request loops of the JSON callback, before `_parseGLTF`: buffers, then images,
      then programs. */
  function Launch(s: State, doc: Doc): State
    requires ShadersKnown(doc)
  {
    RequestPrograms(RequestEach(RequestEach(s, BufferResource, doc.buffers), ImageResource, doc.images),
                    doc.shaders, doc.programs)
  }

  /** Every fetch launched is counted, once per buffer and image and twice per program, and
      the fetches are logged in loop order, every url under the base uri. */
  lemma LaunchCounts(s: State, doc: Doc)
    requires ShadersKnown(doc)
    ensures var r := Launch(s, doc);
      r.tracker == s.tracker.(bufferRequested := s.tracker.bufferRequested + |doc.buffers|,
                              imageRequested := s.tracker.imageRequested + |doc.images|,
                              shaderRequested := s.tracker.shaderRequested + 2 * |doc.programs|) &&
      r.requests == s.requests + Fetches(BufferResource, s.baseUri, doc.buffers) +
                    Fetches(ImageResource, s.baseUri, doc.images) +
                    ShaderFetches(s.baseUri, doc.shaders, doc.programs) &&
      |r.requests| - |s.requests| ==
        (r.tracker.bufferRequested - s.tracker.bufferRequested) +
        (r.tracker.imageRequested - s.tracker.imageRequested) +
        (r.tracker.shaderRequested - s.tracker.shaderRequested)
  {
    var s1 := RequestEach(s, BufferResource, doc.buffers);
    RequestEachEffect(s, BufferResource, doc.buffers);
    RequestEachEffect(s1, ImageResource, doc.images);
    RequestProgramsEffect(RequestEach(s1, ImageResource, doc.images), doc.shaders, doc.programs);
  }

  // ----- Image and shader arrivals -----

  /** The first two statements of `loadImageCallback(img, iid)`. */
  function StoreImage(s: State, iid: string, img: Image): State
  {
    s.(tracker := s.tracker.(imageLoaded := s.tracker.imageLoaded + 1), images := s.images[iid := img])
  }

  /** `loadImageCallback(img, iid)`: count the image, store it, `_checkComplete`. */
  function ImageArrived(s: State, iid: string, img: Image): State
  {
    Checked(StoreImage(s, iid, img))
  }

  datatype Stage = VertexStage | FragmentStage

  /** The shader text of the other stage, which the callback tests for truthiness. */
  function Partner(p: ProgramState, stage: Stage): Option<string>
  {
    if stage == VertexStage then p.fragmentShader else p.vertexShader
  }

  /** Count the text and store it in its half of the program entry. */
  function StoreShader(s: State, pid: string, stage: Stage, text: string): State
    requires pid in s.programs
  {
    var p := s.programs[pid];
    var q := if stage == VertexStage then p.(vertexShader := Some(text)) else p.(fragmentShader := Some(text));
    s.(tracker := s.tracker.(shaderLoaded := s.tracker.shaderLoaded + 1), programs := s.programs[pid := q])
  }

  /** Link the program (`_createProgram`) of `pid`. */
  function Link(s: State, pid: string): State
    requires pid in s.programs
  {
    s.(programs := s.programs[pid := s.programs[pid].(linked := true)])
  }

  /**
   * `loadVertexShaderFileCallback` / `loadFragmentShaderFileCallback` for program `pid`:
   * count and store the text; only if the other stage's text is truthy, link the program and
   * call `_checkComplete`.
   */
  function ShaderArrived(s: State, pid: string, stage: Stage, text: string): State
    requires pid in s.programs
  {
    var s1 := StoreShader(s, pid, stage, text);
    if Truthy(Partner(s.programs[pid], stage)) then Checked(Link(s1, pid)) else s1
  }

  /** An image arrival counts the image, stores it under its own id, and changes nothing else
      but the completion flag and the `onload` count. */
  lemma ImageArrivedEffect(s: State, iid: string, img: Image)
    ensures var r := ImageArrived(s, iid, img);
      r.images == s.images[iid := img] &&
      r.tracker == CheckComplete(s.tracker.(imageLoaded := s.tracker.imageLoaded + 1)) &&
      r.(tracker := s.tracker, images := s.images) == s
  {
  }

  /** A shader arrival stores the text in its stage and keeps the other stage's text; the
      program is linked exactly when it was or the other stage's text is truthy; no other
      program entry changes. */
  lemma ShaderArrivedStores(s: State, pid: string, stage: Stage, text: string)
    requires pid in s.programs
    ensures var r := ShaderArrived(s, pid, stage, text);
      pid in r.programs &&
      (stage == VertexStage ==> r.programs[pid].vertexShader == Some(text) && r.programs[pid].fragmentShader == s.programs[pid].fragmentShader) &&
      (stage == FragmentStage ==> r.programs[pid].fragmentShader == Some(text) && r.programs[pid].vertexShader == s.programs[pid].vertexShader) &&
      (r.programs[pid].linked <==> s.programs[pid].linked || Truthy(Partner(s.programs[pid], stage))) &&
      (forall k :: k in s.programs && k != pid ==> k in r.programs && r.programs[k] == s.programs[k])
  {
    var s1 := StoreShader(s, pid, stage, text);
    assert s1.programs == s.programs[pid := s1.programs[pid]];
    if stage == VertexStage {
      assert s1.programs[pid] == s.programs[pid].(vertexShader := Some(text));
    } else {
      assert s1.programs[pid] == s.programs[pid].(fragmentShader := Some(text));
    }
  }

  /** A shader arrival counts the text; `_checkComplete` runs exactly when the other stage's
      text is truthy, and otherwise the tracker changes only in the loaded count. Nothing but
      the tracker and the program entries changes. */
  lemma ShaderArrivedCounts(s: State, pid: string, stage: Stage, text: string)
    requires pid in s.programs
    ensures var r := ShaderArrived(s, pid, stage, text);
      var t := s.tracker.(shaderLoaded := s.tracker.shaderLoaded + 1);
      r.tracker == (if Truthy(Partner(s.programs[pid], stage)) then CheckComplete(t) else t) &&
      r.(tracker := s.tracker, programs := s.programs) == s
  {
    var s1 := StoreShader(s, pid, stage, text);
    assert s1.(tracker := s.tracker, programs := s.programs) == s;
  }

  /** Both texts of a fresh program arriving, truthy, in either order: the program ends up
      linked with both texts, and `_checkComplete` ran once, on the second arrival. */
  lemma BothStagesLink(s: State, pid: string, vs: string, fs: string, first: Stage)
    requires pid in s.programs && s.programs[pid] == ProgramState(None, None, false)
    requires vs != "" && fs != ""
    ensures var second := if first == VertexStage then FragmentStage else VertexStage;
      var s1 := ShaderArrived(s, pid, first, if first == VertexStage then vs else fs);
      var r := ShaderArrived(s1, pid, second, if second == VertexStage then vs else fs);
      r.programs[pid] == ProgramState(Some(vs), Some(fs), true) &&
      s1.tracker == s.tracker.(shaderLoaded := s.tracker.shaderLoaded + 1) &&
      r.tracker == CheckComplete(s.tracker.(shaderLoaded := s.tracker.shaderLoaded + 2))
  {
    var second := if first == VertexStage then FragmentStage else VertexStage;
    var s1 := ShaderArrived(s, pid, first, if first == VertexStage then vs else fs);
    ShaderArrivedStores(s, pid, first, if first == VertexStage then vs else fs);
    ShaderArrivedCounts(s, pid, first, if first == VertexStage then vs else fs);
    ShaderArrivedStores(s1, pid, second, if second == VertexStage then vs else fs);
    ShaderArrivedCounts(s1, pid, second, if second == VertexStage then vs else fs);
  }

  /** An empty first text is falsy: the second arrival neither links the program nor calls
      `_checkComplete`, so if it is the last resource to arrive `onload` is not invoked by it.
      This is a property of the callbacks alone: `_loadShaderFile` calls them only with a
      truthy response, so through that transport an empty stage never arrives. */
  lemma EmptyStageNeverLinks(s: State, pid: string, stage: Stage, text: string)
    requires pid in s.programs && !s.programs[pid].linked && Partner(s.programs[pid], stage) == Some("")
    ensures var r := ShaderArrived(s, pid, stage, text);
      !r.programs[pid].linked && r.tracker == s.tracker.(shaderLoaded := s.tracker.shaderLoaded + 1)
  {
    ShaderArrivedStores(s, pid, stage, text);
    ShaderArrivedCounts(s, pid, stage, text);
  }

  // ----- The session invariant -----

  /** Storing an image (and `_checkComplete`) keeps the session invariant. */
  lemma ImageArrivedKeepsInv(doc: Doc, s: State, iid: string, img: Image)
    requires Inv(doc, s)
    ensures Inv(doc, ImageArrived(s, iid, img))
  {
    InvFrame(doc, s, ImageArrived(s, iid, img));
  }

  /** A shader arrival keeps the session invariant. */
  lemma ShaderArrivedKeepsInv(doc: Doc, s: State, pid: string, stage: Stage, text: string)
    requires Inv(doc, s) && pid in s.programs
    ensures Inv(doc, ShaderArrived(s, pid, stage, text))
  {
    var r := ShaderArrived(s, pid, stage, text);
    ShaderArrivedCounts(s, pid, stage, text);
    assert r.buffers == s.buffers && r.bufferViews == s.bufferViews && r.bufferTasks == s.bufferTasks && r.prims == s.prims;
    InvFrame(doc, s, r);
  }
}
