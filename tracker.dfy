/**
 * The completion tracker of the loader: request/arrival counters for buffers, shader texts
 * and images, the deferred-task counters, the `_parseDone` and `_loadDone` flags, and a
 * count of the `onload` invocations so far.
 */
module Tracker {

  datatype Tracker = Tracker(
    parseDone: bool,
    loadDone: bool,
    bufferRequested: nat,
    bufferLoaded: nat,
    shaderRequested: nat,
    shaderLoaded: nat,
    imageRequested: nat,
    imageLoaded: nat,
    pendingTasks: nat,
    finishedPendingTasks: nat,
    onloadCalls: nat)

  /** The counters and flags `_init` sets, before any `onload` call. */
  function Initial(): (t: Tracker)
    ensures !t.parseDone && !t.loadDone && t.onloadCalls == 0
    ensures ResourcesBalanced(t) && t.pendingTasks == t.finishedPendingTasks
  {
    Tracker(false, false, 0, 0, 0, 0, 0, 0, 0, 0, 0)
  }

  /** Every requested buffer, shader text and image has arrived. */
  predicate ResourcesBalanced(t: Tracker)
  {
    t.bufferRequested == t.bufferLoaded &&
    t.shaderRequested == t.shaderLoaded &&
    t.imageRequested == t.imageLoaded
  }

  /** The condition under which `_checkComplete` invokes `onload`. */
  predicate ReadyToFire(t: Tracker)
  {
    t.loadDone && t.parseDone && t.pendingTasks == t.finishedPendingTasks
  }

  /**
   * `_checkComplete`: raises `_loadDone` once the resources balance (it never lowers it),
   * then invokes `onload` if the tracker is ready. There is no fired-once guard.
   */
  function CheckComplete(t: Tracker): (r: Tracker)
    ensures r.loadDone <==> t.loadDone || ResourcesBalanced(t)
    ensures r.onloadCalls == t.onloadCalls + (if ReadyToFire(r) then 1 else 0)
    ensures r.(loadDone := t.loadDone, onloadCalls := t.onloadCalls) == t
  {
    var t1 := if ResourcesBalanced(t) then t.(loadDone := true) else t;
    if ReadyToFire(t1) then t1.(onloadCalls := t1.onloadCalls + 1) else t1
  }

  /** `onload` runs exactly when parsing is done, the deferred tasks balance, and the
      resources balance now or balanced at some earlier check. */
  lemma FiresExactlyWhen(t: Tracker)
    ensures CheckComplete(t).onloadCalls > t.onloadCalls <==>
      t.parseDone && t.pendingTasks == t.finishedPendingTasks && (t.loadDone || ResourcesBalanced(t))
  {
  }

  /** Nothing guards against a second call: once ready, every further check fires again. */
  lemma FiresOnEveryReadyCheck(t: Tracker)
    requires ReadyToFire(CheckComplete(t))
    ensures ReadyToFire(CheckComplete(CheckComplete(t)))
    ensures CheckComplete(CheckComplete(t)).onloadCalls == t.onloadCalls + 2
  {
  }
}
