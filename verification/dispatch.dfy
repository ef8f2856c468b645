/**
 The chain-of-responsibility dispatch of `FlowReconcileManager.reconcileFlow`:
 the request is wrapped in a one-element list and the ordered listeners are
 called one after another until one of them answers `Stop` (or throws).
 The ordered listener sequence is an input: how the registry orders its
 listeners is not part of this model.
 */
module Dispatch {
  import opened Listeners

  /** The dispatch loop from position `i` of the ordered listeners on:
      every call receives the same `batch`, and the walk ends at the first
      listener that halts, or after the last listener. */
  function DispatchFrom<R>(listeners: seq<Listener<R>>, batch: seq<R>, i: nat): (p: Pass<R>)
    requires i <= |listeners|
    ensures i + |p.trace| <= |listeners|
    ensures forall k :: 0 <= k < |p.trace| ==> p.trace[k].index == i + k && p.trace[k].batch == batch
    ensures forall k :: i <= k < i + |p.trace| - 1 ==> listeners[k](batch) == Returns(Continue)
    ensures i + |p.trace| < |listeners| ==> |p.trace| > 0 && Halts(listeners[i + |p.trace| - 1](batch))
    ensures p.raised <==> |p.trace| > 0 && listeners[i + |p.trace| - 1](batch) == Throws
    decreases |listeners| - i
  {
    if i == |listeners| then
      Pass([], false)
    else
      match listeners[i](batch)
      case Returns(Continue) =>
        var rest := DispatchFrom(listeners, batch, i + 1);
        Pass([Invocation(i, batch)] + rest.trace, rest.raised)
      case Returns(Stop) =>
        Pass([Invocation(i, batch)], false)
      case Throws =>
        Pass([Invocation(i, batch)], true)
  }

  /** One pass over the whole ordered listener sequence. The invoked
      listeners are a prefix of the sequence, in order, each handed `batch`;
      all but the last answered `Continue`; the pass is cut short only by a
      halting reply. */
  function DispatchPass<R>(listeners: seq<Listener<R>>, batch: seq<R>): (p: Pass<R>)
    ensures |p.trace| <= |listeners|
    ensures forall k :: 0 <= k < |p.trace| ==> p.trace[k] == Invocation(k, batch)
    ensures forall k :: 0 <= k < |p.trace| - 1 ==> listeners[k](batch) == Returns(Continue)
    ensures |p.trace| < |listeners| ==> |p.trace| > 0 && Halts(listeners[|p.trace| - 1](batch))
    ensures p.raised <==> |p.trace| > 0 && listeners[|p.trace| - 1](batch) == Throws
  {
    DispatchFrom(listeners, batch, 0)
  }

  /** `reconcileFlow`: a no-op when reconciliation is disabled; otherwise
      one dispatch pass over the one-element list holding `request`. */
  function ReconcileFlow<R>(enabled: bool, listeners: seq<Listener<R>>, request: R): (p: Pass<R>)
    ensures !enabled ==> |p.trace| == 0 && !p.raised
    ensures |p.trace| <= |listeners|
    ensures forall k :: 0 <= k < |p.trace| ==> p.trace[k] == Invocation(k, [request])
  {
    if !enabled then Pass([], false) else DispatchPass(listeners, [request])
  }

  /** True when listener `i` is the first one whose reply to `batch` halts
      the chain: every listener before it answered `Continue`. */
  predicate IsFirstHalt<R>(listeners: seq<Listener<R>>, batch: seq<R>, i: nat) {
    && i < |listeners|
    && Halts(listeners[i](batch))
    && forall j :: 0 <= j < i ==> listeners[j](batch) == Returns(Continue)
  }

  /** True when every listener answers `Continue` to `batch`. */
  predicate AllContinue<R>(listeners: seq<Listener<R>>, batch: seq<R>) {
    forall j :: 0 <= j < |listeners| ==> listeners[j](batch) == Returns(Continue)
  }

  /** A pass is determined by how far it got: its trace is the first
      `|trace|` calls, each handed `batch`. */
  lemma DispatchTraceIsCalls<R>(listeners: seq<Listener<R>>, batch: seq<R>)
    ensures DispatchPass(listeners, batch).trace == Calls(|DispatchPass(listeners, batch).trace|, batch)
  {
    var p := DispatchPass(listeners, batch);
    assert forall k :: 0 <= k < |p.trace| ==> p.trace[k] == Calls(|p.trace|, batch)[k];
  }

  /** Exactly `n > 0` listeners are invoked when listener `n - 1` is the
      first to halt, or when there are `n` listeners and none halts; the
      pass raises exactly when that last listener threw. */
  lemma DispatchLengthIsFirstHalt<R>(listeners: seq<Listener<R>>, batch: seq<R>, n: nat)
    requires 0 < n
    ensures |DispatchPass(listeners, batch).trace| == n
        <==> IsFirstHalt(listeners, batch, n - 1) || (n == |listeners| && AllContinue(listeners, batch))
    ensures |DispatchPass(listeners, batch).trace| == n
        ==> (DispatchPass(listeners, batch).raised <==> listeners[n - 1](batch) == Throws)
  {
    var p := DispatchPass(listeners, batch);
    if |p.trace| == n {
      if n < |listeners| || Halts(listeners[n - 1](batch)) {
        assert IsFirstHalt(listeners, batch, n - 1);
      } else {
        assert AllContinue(listeners, batch);
      }
    }
  }

  /** If listener `i` is the first to answer `Stop`, `reconcileFlow`
      invokes exactly listeners `0..i`, each with the one-element list, and
      returns normally. */
  lemma FirstStopInvokesThroughIt<R>(listeners: seq<Listener<R>>, request: R, i: nat)
    requires IsFirstHalt(listeners, [request], i)
    requires listeners[i]([request]) == Returns(Stop)
    ensures ReconcileFlow(true, listeners, request) == Pass(Calls(i + 1, [request]), false)
  {
    DispatchLengthIsFirstHalt(listeners, [request], i + 1);
    DispatchTraceIsCalls(listeners, [request]);
  }

  /** If listener `i` is the first to throw, `reconcileFlow` invokes exactly
      listeners `0..i` and the exception reaches its caller. */
  lemma FirstThrowInvokesThroughIt<R>(listeners: seq<Listener<R>>, request: R, i: nat)
    requires IsFirstHalt(listeners, [request], i)
    requires listeners[i]([request]) == Throws
    ensures ReconcileFlow(true, listeners, request) == Pass(Calls(i + 1, [request]), true)
  {
    DispatchLengthIsFirstHalt(listeners, [request], i + 1);
    DispatchTraceIsCalls(listeners, [request]);
  }

  /** If no listener halts, `reconcileFlow` invokes all of them, in order,
      and returns normally; an empty sequence gives zero invocations. */
  lemma NoHaltInvokesAll<R>(listeners: seq<Listener<R>>, request: R)
    requires AllContinue(listeners, [request])
    ensures ReconcileFlow(true, listeners, request) == Pass(Calls(|listeners|, [request]), false)
  {
    if |listeners| > 0 {
      DispatchLengthIsFirstHalt(listeners, [request], |listeners|);
    }
    DispatchTraceIsCalls(listeners, [request]);
  }

  /** With reconciliation disabled no listener is invoked, whatever the
      request and whatever the listeners. */
  lemma DisabledInvokesNothing<R>(listeners: seq<Listener<R>>, request: R)
    ensures ReconcileFlow(false, listeners, request) == Pass([], false)
  {
  }

  /** The loop of `reconcileFlow` written as the source writes it: a gate
      check, a one-element list, and a for-each over the ordered listeners
      that breaks on `Stop`. An exception ends the loop and is reported in
      `raised`. It produces exactly the pass `ReconcileFlow` describes. */
  method RunReconcileFlow<R>(enabled: bool, listeners: seq<Listener<R>>, request: R)
      returns (trace: seq<Invocation<R>>, raised: bool)
    ensures Pass(trace, raised) == ReconcileFlow(enabled, listeners, request)
  {
    trace := [];
    raised := false;
    if !enabled {
      return;
    }
    var batch := [request];
    var i := 0;
    while i < |listeners|
      invariant 0 <= i <= |listeners|
      invariant trace == Calls(i, batch)
      invariant forall k :: 0 <= k < i ==> listeners[k](batch) == Returns(Continue)
      decreases |listeners| - i
    {
      var reply := listeners[i](batch);
      trace := trace + [Invocation(i, batch)];
      if reply == Throws {
        raised := true;
        FirstThrowInvokesThroughIt(listeners, request, i);
        return;
      }
      if reply.cmd == Stop {
        FirstStopInvokesThroughIt(listeners, request, i);
        return;
      }
      i := i + 1;
    }
    NoHaltInvokesAll(listeners, request);
  }
}
