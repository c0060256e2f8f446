/**
 * The bufferView cache: `_getBufferViewData`, the deferred tasks it queues per buffer, and
 * the buffer-arrival handler of `loadGLTF` that runs them. Each operation is a function of
 * the session state; the loader's methods are proved to perform exactly these steps.
 */
module Cache {
  import opened Wrappers
  import opened Document
  import opened Typed
  import opened Tracker
  import opened Model

  /** The bytes `bufferData.slice(byteOffset, byteOffset + byteLength)` copies for a view. */
  function ViewSlice(bytes: Bytes, view: BufferView): (r: Bytes)
    ensures view.byteOffset + view.byteLength <= |bytes| ==>
      r == bytes[view.byteOffset..view.byteOffset + view.byteLength] && |r| == view.byteLength
  {
    Slice(bytes, view.byteOffset, view.byteOffset + view.byteLength)
  }

  /** Caching a full-length copy of a document view keeps every cached view full length. */
  lemma MemoSizedInsert(doc: Doc, memo: map<string, Bytes>, vid: string, data: Bytes)
    requires MemoSized(doc, memo) && vid in doc.bufferViews && |data| == doc.bufferViews[vid].byteLength
    ensures MemoSized(doc, memo[vid := data])
  {
  }

  /** The tracker differs at most in `_finishedPendingTasks`, `_loadDone` (only raised) and
      the `onload` count (only grown). */
  predicate CountersKept(t: Tracker, u: Tracker)
  {
    u.parseDone == t.parseDone && (t.loadDone ==> u.loadDone) && t.onloadCalls <= u.onloadCalls &&
    u.bufferRequested == t.bufferRequested && u.bufferLoaded == t.bufferLoaded &&
    u.shaderRequested == t.shaderRequested && u.shaderLoaded == t.shaderLoaded &&
    u.imageRequested == t.imageRequested && u.imageLoaded == t.imageLoaded &&
    u.pendingTasks == t.pendingTasks
  }

  /**
   * `_getBufferViewData(json, viewId, callback)` with the callback given as `target`.
   * A cached view goes to the callback; an uncached view whose buffer is present is sliced
   * and cached, and the callback receives the value read before the lookup, `undefined`;
   * otherwise one task is queued at the end of the buffer's list. The three cases are the
   * lemmas below.
   */
  function GetBufferView(s: State, doc: Doc, viewId: string, target: Target): (r: State)
    requires viewId in doc.bufferViews && target.prim < |s.prims|
    requires viewId in s.bufferViews ==> FitsLength(target, |s.bufferViews[viewId]|)
    ensures Untouched(s, r)
  {
    var view := doc.bufferViews[viewId];
    if viewId in s.bufferViews then
      Callback(s, target, Some(s.bufferViews[viewId]))
    else if view.buffer in s.buffers then
      Callback(s.(bufferViews := s.bufferViews[viewId := ViewSlice(s.buffers[view.buffer], view)]), target, None)
    else
      s.(tracker := s.tracker.(pendingTasks := s.tracker.pendingTasks + 1),
         bufferTasks := s.bufferTasks[view.buffer := TasksOf(s.bufferTasks, view.buffer) + [Task(viewId, view, target)]])
  }

  /** Cache hit: the callback gets the cached value, and no map or counter other than the
      consumer's `_checkComplete` changes. */
  lemma GetBufferViewHit(s: State, doc: Doc, viewId: string, target: Target)
    requires viewId in doc.bufferViews && target.prim < |s.prims|
    requires viewId in s.bufferViews && FitsLength(target, |s.bufferViews[viewId]|)
    ensures var r := GetBufferView(s, doc, viewId, target);
      r.bufferViews == s.bufferViews && r.bufferTasks == s.bufferTasks &&
      r.tracker == CheckComplete(s.tracker) &&
      r.prims == s.prims[target.prim := Fill(s.prims[target.prim], target, Some(s.bufferViews[viewId]))]
  {
  }

  /** Miss with the buffer present: the view's slice is cached, no task is queued, and the
      callback gets `undefined`. */
  lemma GetBufferViewMissLoaded(s: State, doc: Doc, viewId: string, target: Target)
    requires viewId in doc.bufferViews && target.prim < |s.prims|
    requires viewId !in s.bufferViews && doc.bufferViews[viewId].buffer in s.buffers
    ensures var r := GetBufferView(s, doc, viewId, target);
      var view := doc.bufferViews[viewId];
      r.bufferViews == s.bufferViews[viewId := ViewSlice(s.buffers[view.buffer], view)] &&
      r.bufferTasks == s.bufferTasks && r.tracker == CheckComplete(s.tracker) &&
      r.prims == s.prims[target.prim := Fill(s.prims[target.prim], target, None)]
  {
  }

  /** Miss with the buffer absent: exactly one task goes to the end of the buffer's list (the
      list is created if missing), `_pendingTasks` grows by one, and nothing else changes. */
  lemma GetBufferViewMissQueued(s: State, doc: Doc, viewId: string, target: Target)
    requires viewId in doc.bufferViews && target.prim < |s.prims|
    requires viewId !in s.bufferViews && doc.bufferViews[viewId].buffer !in s.buffers
    ensures var r := GetBufferView(s, doc, viewId, target);
      var view := doc.bufferViews[viewId];
      r.bufferViews == s.bufferViews && r.prims == s.prims &&
      r.tracker == s.tracker.(pendingTasks := s.tracker.pendingTasks + 1) &&
      r.bufferTasks == s.bufferTasks[view.buffer := TasksOf(s.bufferTasks, view.buffer) + [Task(viewId, view, target)]]
  {
  }

  /**
   * One queued task run on the arrived bytes: it slices its view only if no earlier writer
   * cached it, counts itself finished, and hands the cached value to its consumer.
   */
  function RunTask(s: State, doc: Doc, t: Task, bytes: Bytes): (r: State)
    requires MemoSized(doc, s.bufferViews) && Covers(doc, t.view.buffer, bytes)
    requires TaskOk(doc, |s.prims|, t.view.buffer, t)
    ensures MemoSized(doc, r.bufferViews) && |r.prims| == |s.prims|
    ensures r.bufferViews == if t.viewId in s.bufferViews then s.bufferViews
                             else s.bufferViews[t.viewId := ViewSlice(bytes, t.view)]
  {
    var memo := if t.viewId in s.bufferViews then s.bufferViews
                else (MemoSizedInsert(doc, s.bufferViews, t.viewId, ViewSlice(bytes, t.view));
                      s.bufferViews[t.viewId := ViewSlice(bytes, t.view)]);
    var s1 := s.(bufferViews := memo,
                 tracker := s.tracker.(finishedPendingTasks := s.tracker.finishedPendingTasks + 1));
    Callback(s1, t.target, Some(memo[t.viewId]))
  }

  /** A task counts itself finished, hands the cached value to its consumer, and leaves the
      rest of the session alone. */
  lemma RunTaskEffect(s: State, doc: Doc, t: Task, bytes: Bytes)
    requires MemoSized(doc, s.bufferViews) && Covers(doc, t.view.buffer, bytes)
    requires TaskOk(doc, |s.prims|, t.view.buffer, t)
    ensures var r := RunTask(s, doc, t, bytes);
      Untouched(s, r) && r.bufferTasks == s.bufferTasks && t.viewId in r.bufferViews &&
      r.tracker == CheckComplete(s.tracker.(finishedPendingTasks := s.tracker.finishedPendingTasks + 1)) &&
      r.prims == s.prims[t.target.prim := Fill(s.prims[t.target.prim], t.target, Some(r.bufferViews[t.viewId]))]
  {
  }

  /** `ts[i]` is the first task of `ts` on its view. */
  predicate FirstOfView(ts: seq<Task>, i: nat)
    requires i < |ts|
  {
    forall j :: 0 <= j < i ==> ts[j].viewId != ts[i].viewId
  }

  /** The cache after the tasks `ts` ran on the arrived `bytes`: each task stores its view's
      slice unless the view is already cached. */
  function MemoAfter(memo: map<string, Bytes>, ts: seq<Task>, bytes: Bytes): map<string, Bytes>
    decreases |ts|
  {
    if ts == [] then memo
    else
      var n := |ts| - 1;
      var m := MemoAfter(memo, ts[..n], bytes);
      if ts[n].viewId in m then m else m[ts[n].viewId := ViewSlice(bytes, ts[n].view)]
  }

  /** The tasks `ts` queued on buffer `b`, run in list order. */
  function RunTasks(s: State, doc: Doc, b: string, ts: seq<Task>, bytes: Bytes): (r: State)
    requires MemoSized(doc, s.bufferViews) && Covers(doc, b, bytes)
    requires forall i :: 0 <= i < |ts| ==> TaskOk(doc, |s.prims|, b, ts[i])
    ensures MemoSized(doc, r.bufferViews) && |r.prims| == |s.prims|
    ensures r.bufferViews == MemoAfter(s.bufferViews, ts, bytes)
    decreases |ts|
  {
    if ts == [] then s
    else
      var n := |ts| - 1;
      assert forall i :: 0 <= i < n ==> ts[..n][i] == ts[i];
      var mid := RunTasks(s, doc, b, ts[..n], bytes);
      assert TaskOk(doc, |mid.prims|, b, ts[n]);
      RunTask(mid, doc, ts[n], bytes)
  }

  /** Running a queue counts each task finished exactly once and changes nothing outside
      the cache, the tracker's completion flags and the primitives' decoded data. */
  lemma {:induction false} RunTasksFrame(s: State, doc: Doc, b: string, ts: seq<Task>, bytes: Bytes)
    requires MemoSized(doc, s.bufferViews) && Covers(doc, b, bytes)
    requires forall i :: 0 <= i < |ts| ==> TaskOk(doc, |s.prims|, b, ts[i])
    ensures var r := RunTasks(s, doc, b, ts, bytes);
      Untouched(s, r) && r.bufferTasks == s.bufferTasks && CountersKept(s.tracker, r.tracker) &&
      r.tracker.finishedPendingTasks == s.tracker.finishedPendingTasks + |ts|
    decreases |ts|
  {
    if ts != [] {
      var n := |ts| - 1;
      assert forall i :: 0 <= i < n ==> ts[..n][i] == ts[i];
      RunTasksFrame(s, doc, b, ts[..n], bytes);
      RunTaskEffect(RunTasks(s, doc, b, ts[..n], bytes), doc, ts[n], bytes);
    }
  }

  /** Running a queue caches the view of every task and never replaces a cached view. */
  lemma {:induction false} MemoAfterKeeps(memo: map<string, Bytes>, ts: seq<Task>, bytes: Bytes)
    ensures forall vid :: vid in memo ==> vid in MemoAfter(memo, ts, bytes) && MemoAfter(memo, ts, bytes)[vid] == memo[vid]
    ensures forall i :: 0 <= i < |ts| ==> ts[i].viewId in MemoAfter(memo, ts, bytes)
    decreases |ts|
  {
    if ts != [] {
      var n := |ts| - 1;
      assert forall i :: 0 <= i < n ==> ts[..n][i] == ts[i];
      MemoAfterKeeps(memo, ts[..n], bytes);
    }
  }

  /** The first task on an uncached view stores its slice, and every later task on that view
      reads that same value. */
  lemma {:induction false} MemoAfterFirst(memo: map<string, Bytes>, ts: seq<Task>, bytes: Bytes, i: nat)
    requires i < |ts| && ts[i].viewId !in memo && FirstOfView(ts, i)
    ensures ts[i].viewId in MemoAfter(memo, ts, bytes)
    ensures MemoAfter(memo, ts, bytes)[ts[i].viewId] == ViewSlice(bytes, ts[i].view)
    decreases |ts|
  {
    var n := |ts| - 1;
    var prefix := ts[..n];
    var m := MemoAfter(memo, prefix, bytes);
    if i < n {
      assert prefix[i] == ts[i];
      assert FirstOfView(prefix, i);
      MemoAfterFirst(memo, prefix, bytes, i);
    } else {
      assert forall j :: 0 <= j < n ==> prefix[j].viewId != ts[n].viewId;
      MemoAfterAbsent(memo, prefix, bytes, ts[n].viewId);
    }
  }

  /** A view no task of the queue names is cached afterwards only if it was before. */
  lemma {:induction false} MemoAfterAbsent(memo: map<string, Bytes>, ts: seq<Task>, bytes: Bytes, vid: string)
    requires vid !in memo && forall j :: 0 <= j < |ts| ==> ts[j].viewId != vid
    ensures vid !in MemoAfter(memo, ts, bytes)
    decreases |ts|
  {
    if ts != [] {
      var n := |ts| - 1;
      assert forall j :: 0 <= j < n ==> ts[..n][j] == ts[j];
      MemoAfterAbsent(memo, ts[..n], bytes, vid);
    }
  }

  /**
   * The buffer-arrival handler: stores the buffer, counts it loaded, runs every task queued
   * on it in order (the list is left in place), then calls `_checkComplete`.
   */
  function BufferArrived(s: State, doc: Doc, bid: string, bytes: Bytes): (r: State)
    requires MemoSized(doc, s.bufferViews) && Covers(doc, bid, bytes)
    requires TasksOk(doc, |s.prims|, s.bufferTasks)
    ensures MemoSized(doc, r.bufferViews)
  {
    Checked(RunTasks(Arrive(s, bid, bytes), doc, bid, TasksOf(s.bufferTasks, bid), bytes))
  }

  /** The first two statements of the handler: store the buffer and count it loaded. */
  function Arrive(s: State, bid: string, bytes: Bytes): State
  {
    s.(buffers := s.buffers[bid := bytes], tracker := s.tracker.(bufferLoaded := s.tracker.bufferLoaded + 1))
  }

  /** An arrival stores the buffer, counts it and every task queued on it exactly once,
      and changes no scene, node matrix or queue. */
  lemma BufferArrivedEffect(s: State, doc: Doc, bid: string, bytes: Bytes)
    requires MemoSized(doc, s.bufferViews) && Covers(doc, bid, bytes)
    requires TasksOk(doc, |s.prims|, s.bufferTasks)
    ensures var r := BufferArrived(s, doc, bid, bytes);
      r.buffers == s.buffers[bid := bytes] && r.bufferTasks == s.bufferTasks &&
      |r.prims| == |s.prims| && r.scenes == s.scenes && r.nodeMatrix == s.nodeMatrix &&
      r.tracker.bufferLoaded == s.tracker.bufferLoaded + 1 &&
      r.tracker.pendingTasks == s.tracker.pendingTasks &&
      r.tracker.finishedPendingTasks == s.tracker.finishedPendingTasks + |TasksOf(s.bufferTasks, bid)|
  {
    RunTasksFrame(Arrive(s, bid, bytes), doc, bid, TasksOf(s.bufferTasks, bid), bytes);
  }

  /** An arrival never replaces a cached view. */
  lemma BufferArrivedKeepsViews(s: State, doc: Doc, bid: string, bytes: Bytes)
    requires MemoSized(doc, s.bufferViews) && Covers(doc, bid, bytes)
    requires TasksOk(doc, |s.prims|, s.bufferTasks)
    ensures var r := BufferArrived(s, doc, bid, bytes);
      forall vid :: vid in s.bufferViews ==> vid in r.bufferViews && r.bufferViews[vid] == s.bufferViews[vid]
  {
    MemoAfterKeeps(s.bufferViews, TasksOf(s.bufferTasks, bid), bytes);
  }

  // ----- Counting the outstanding tasks -----

  lemma {:induction false} OutstandingRemove(tasks: map<string, seq<Task>>, arrived: set<string>, k: string)
    requires k in tasks
    ensures Outstanding(tasks, arrived) == Contribution(tasks, arrived, k) + Outstanding(tasks - {k}, arrived)
    decreases tasks.Keys
  {
    var b :| b in tasks && Outstanding(tasks, arrived) == Contribution(tasks, arrived, b) + Outstanding(tasks - {b}, arrived);
    if b != k {
      var rest := tasks - {b};
      OutstandingRemove(rest, arrived, k);
      OutstandingRemove(tasks - {k}, arrived, b);
      assert rest - {k} == (tasks - {k}) - {b};
      assert Contribution(rest, arrived, k) == Contribution(tasks, arrived, k);
      assert Contribution(tasks - {k}, arrived, b) == Contribution(tasks, arrived, b);
    }
  }

  /** Queuing one more task on a buffer that has not arrived adds one outstanding task. */
  lemma OutstandingQueue(tasks: map<string, seq<Task>>, arrived: set<string>, b: string, t: Task)
    requires b !in arrived
    ensures Outstanding(tasks[b := TasksOf(tasks, b) + [t]], arrived) == Outstanding(tasks, arrived) + 1
  {
    var grown := tasks[b := TasksOf(tasks, b) + [t]];
    OutstandingRemove(grown, arrived, b);
    assert grown - {b} == tasks - {b};
    if b in tasks {
      OutstandingRemove(tasks, arrived, b);
    } else {
      assert tasks - {b} == tasks;
    }
  }

  /** When buffer `b` arrives, the tasks queued on it stop being outstanding. */
  lemma {:induction false} OutstandingArrive(tasks: map<string, seq<Task>>, arrived: set<string>, b: string)
    requires b !in arrived
    ensures Outstanding(tasks, arrived) == Outstanding(tasks, arrived + {b}) + |TasksOf(tasks, b)|
    decreases tasks.Keys
  {
    if tasks != map[] {
      var k :| k in tasks;
      OutstandingRemove(tasks, arrived, k);
      OutstandingRemove(tasks, arrived + {b}, k);
      OutstandingArrive(tasks - {k}, arrived, b);
      if k != b {
        assert TasksOf(tasks - {k}, b) == TasksOf(tasks, b);
      }
    }
  }

  /** No task is outstanding once every buffer with a queue has arrived. */
  lemma {:induction false} OutstandingNone(tasks: map<string, seq<Task>>, arrived: set<string>)
    requires tasks.Keys <= arrived
    ensures Outstanding(tasks, arrived) == 0
    decreases tasks.Keys
  {
    if tasks != map[] {
      var k :| k in tasks;
      OutstandingRemove(tasks, arrived, k);
      OutstandingNone(tasks - {k}, arrived);
    }
  }

  // ----- The session invariant across the cache operations -----

  /** `_getBufferViewData` keeps the session invariant when its consumer fits the view. */
  lemma GetBufferViewKeepsInv(s: State, doc: Doc, viewId: string, target: Target)
    requires Inv(doc, s)
    requires viewId in doc.bufferViews && target.prim < |s.prims|
    requires FitsLength(target, doc.bufferViews[viewId].byteLength)
    ensures Inv(doc, GetBufferView(s, doc, viewId, target))
  {
    var view := doc.bufferViews[viewId];
    if viewId in s.bufferViews {
      GetBufferViewHit(s, doc, viewId, target);
      InvFrame(doc, s, GetBufferView(s, doc, viewId, target));
    } else if view.buffer in s.buffers {
      MissLoadedKeepsInv(s, doc, viewId, target);
    } else {
      MissQueuedKeepsInv(s, doc, viewId, target);
    }
  }

  lemma MissLoadedKeepsInv(s: State, doc: Doc, viewId: string, target: Target)
    requires Inv(doc, s)
    requires viewId in doc.bufferViews && target.prim < |s.prims|
    requires viewId !in s.bufferViews && doc.bufferViews[viewId].buffer in s.buffers
    ensures Inv(doc, GetBufferView(s, doc, viewId, target))
  {
    GetBufferViewMissLoaded(s, doc, viewId, target);
    var view := doc.bufferViews[viewId];
    var r := GetBufferView(s, doc, viewId, target);
    assert Covers(doc, view.buffer, s.buffers[view.buffer]);
    assert |ViewSlice(s.buffers[view.buffer], view)| == view.byteLength;
  }

  lemma MissQueuedKeepsInv(s: State, doc: Doc, viewId: string, target: Target)
    requires Inv(doc, s)
    requires viewId in doc.bufferViews && target.prim < |s.prims|
    requires FitsLength(target, doc.bufferViews[viewId].byteLength)
    requires viewId !in s.bufferViews && doc.bufferViews[viewId].buffer !in s.buffers
    ensures Inv(doc, GetBufferView(s, doc, viewId, target))
  {
    GetBufferViewMissQueued(s, doc, viewId, target);
    var view := doc.bufferViews[viewId];
    OutstandingQueue(s.bufferTasks, s.buffers.Keys, view.buffer, Task(viewId, view, target));
    var q := TasksOf(s.bufferTasks, view.buffer) + [Task(viewId, view, target)];
    assert forall i :: 0 <= i < |q| ==> TaskOk(doc, |s.prims|, view.buffer, q[i]);
  }

  /** A buffer arriving for the first time keeps the session invariant; in particular the
      pending count still equals the finished count plus the outstanding tasks. */
  lemma BufferArrivedKeepsInv(s: State, doc: Doc, bid: string, bytes: Bytes)
    requires Inv(doc, s) && bid !in s.buffers && Covers(doc, bid, bytes)
    ensures Inv(doc, BufferArrived(s, doc, bid, bytes))
  {
    OutstandingArrive(s.bufferTasks, s.buffers.Keys, bid);
    BufferArrivedEffect(s, doc, bid, bytes);
    var r := BufferArrived(s, doc, bid, bytes);
    assert r.buffers.Keys == s.buffers.Keys + {bid};
  }

  /** No missed wake-up: once every buffer that has a queue has arrived, every deferred task
      has run, so the pending and finished counters agree. */
  lemma AllQueuesDrained(s: State, doc: Doc)
    requires Inv(doc, s) && s.bufferTasks.Keys <= s.buffers.Keys
    ensures s.tracker.pendingTasks == s.tracker.finishedPendingTasks
  {
    OutstandingNone(s.bufferTasks, s.buffers.Keys);
  }
}
