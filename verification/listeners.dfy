/**
 The vocabulary shared by the reconciliation dispatcher and the query-result
 adapter: what a flow reconcile listener answers, and what one dispatch pass
 leaves behind as an observable trace.
 */
module Listeners {

  /** The directive a listener returns from `reconcileFlows`. */
  datatype Command = Continue | Stop

  /** What one listener call produces: a directive, or an exception that
      nothing in the dispatcher catches. */
  datatype Reply = Returns(cmd: Command) | Throws

  /** A flow reconcile listener, seen only through `reconcileFlows`: it is
      handed the list of reconcile requests and answers with a `Reply`. */
  type Listener<!R> = seq<R> -> Reply

  /** One listener call: the position of the listener in the ordered
      listener sequence, and the request list it was handed. */
  datatype Invocation<R> = Invocation(index: nat, batch: seq<R>)

  /** The observable outcome of one dispatch pass: the listener calls in the
      order they happened, and whether the pass ended by an exception
      propagating to the caller. */
  datatype Pass<R> = Pass(trace: seq<Invocation<R>>, raised: bool)

  /** True when a reply ends the pass: a `Stop` directive or an exception. */
  predicate Halts(reply: Reply) {
    reply != Returns(Continue)
  }

  /** The trace of a pass that invoked the first `n` listeners, each
      handed `batch`. */
  function Calls<R>(n: nat, batch: seq<R>): seq<Invocation<R>> {
    seq(n, k requires 0 <= k => Invocation(k, batch))
  }
}
