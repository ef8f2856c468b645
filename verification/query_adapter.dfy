/**
 The query-result adapter `FlowReconcileManager.flowQueryGenericHandler`:
 a flow-cache query response that did not come from a pure read (`GET`)
 has each of its entries converted to a reconcile request tagged
 `UPDATE_PATH` and the query's application name, and each request goes
 through its own `reconcileFlow` pass, in entry order.
 */
module QueryAdapter {
  import opened Listeners
  import opened Dispatch

  /** The query event type of a flow-cache query. Only the pure-read `GET`
      type is distinguished here; the other types are not part of this
      model beyond being different from `GET`. */
  datatype QueryEvType = Get | NonGet(tag: string)

  /** The reconcile action a request is tagged with. The adapter only ever
      uses `UpdatePath`; the other actions are not part of this model. */
  datatype ReconcileAction = UpdatePath | OtherAction(tag: string)

  /** A flow-cache query response: the originating query's event type and
      application instance name, and the cache entries it returned, in
      order. */
  datatype QueryResp<E> = QueryResp(evType: QueryEvType, applInstName: string, entries: seq<E>)

  /** The conversion of one cache entry, given the application name and the
      action, into a reconcile request; its internals are foreign code. */
  type Converter<!E, R> = (E, string, ReconcileAction) -> R

  /** The reconcile request the adapter builds for `entry`. */
  function ToRequest<E, R>(convert: Converter<E, R>, resp: QueryResp<E>, entry: E): R {
    convert(entry, resp.applInstName, UpdatePath)
  }

  /** The `reconcileFlow` pass the adapter makes for `entry`. */
  function EntryPass<E, R>(enabled: bool, listeners: seq<Listener<R>>, convert: Converter<E, R>,
                           resp: QueryResp<E>, entry: E): Pass<R> {
    ReconcileFlow(enabled, listeners, ToRequest(convert, resp, entry))
  }

  /** The reference against which the handler is stated: the pass each
      entry of `entries` would get if every entry were reconciled, pass `j`
      being determined by entry `j` alone. */
  function AllPasses<E, R>(enabled: bool, listeners: seq<Listener<R>>, convert: Converter<E, R>,
                           resp: QueryResp<E>, entries: seq<E>): seq<Pass<R>> {
    seq(|entries|, j requires 0 <= j < |entries| => EntryPass(enabled, listeners, convert, resp, entries[j]))
  }

  /** One `reconcileFlow` call per entry of `entries`, in order, each a
      fresh pass over the whole listener sequence. An exception in one pass
      propagates and the entries after it are not reconciled: the passes
      made are a prefix of `AllPasses`, cut right after the first pass that
      raises. */
  function ReconcileEntries<E, R>(enabled: bool, listeners: seq<Listener<R>>, convert: Converter<E, R>,
                                  resp: QueryResp<E>, entries: seq<E>): (passes: seq<Pass<R>>)
    ensures passes <= AllPasses(enabled, listeners, convert, resp, entries)
    ensures forall j :: 0 <= j < |passes| - 1 ==> !passes[j].raised
    ensures |passes| < |entries| ==> 0 < |passes| && passes[|passes| - 1].raised
  {
    if entries == [] then
      []
    else
      var p := EntryPass(enabled, listeners, convert, resp, entries[0]);
      if p.raised then [p]
      else
        var rest := ReconcileEntries(enabled, listeners, convert, resp, entries[1..]);
        assert AllPasses(enabled, listeners, convert, resp, entries)
            == [p] + AllPasses(enabled, listeners, convert, resp, entries[1..]);
        [p] + rest
  }

  /** `flowQueryGenericHandler`: the sequence of `reconcileFlow` passes made
      for one query response. A `GET` response makes none; any other makes
      one per entry, in entry order, until a pass raises. */
  function FlowQueryGenericHandler<E, R>(enabled: bool, listeners: seq<Listener<R>>, convert: Converter<E, R>,
                                         resp: QueryResp<E>): (passes: seq<Pass<R>>)
    ensures resp.evType == Get ==> passes == []
    ensures |passes| <= |resp.entries|
    ensures forall j {:trigger passes[j]} :: 0 <= j < |passes| ==>
      passes[j] == EntryPass(enabled, listeners, convert, resp, resp.entries[j])
    ensures resp.evType != Get && |passes| < |resp.entries| ==> 0 < |passes| && passes[|passes| - 1].raised
    ensures forall j :: 0 <= j < |passes| - 1 ==> !passes[j].raised
  {
    if resp.evType == Get then []
    else ReconcileEntries(enabled, listeners, convert, resp, resp.entries)
  }

  /** True when no entry's pass would raise. */
  predicate NoPassRaises<E, R>(enabled: bool, listeners: seq<Listener<R>>, convert: Converter<E, R>, resp: QueryResp<E>) {
    forall j :: 0 <= j < |resp.entries| ==>
      !EntryPass(enabled, listeners, convert, resp, resp.entries[j]).raised
  }

  /** A response that is not a pure read, with `k` entries none of whose
      passes raises, makes exactly `k` `reconcileFlow` calls, the `j`-th on
      the `j`-th entry. */
  lemma NonGetReconcilesEveryEntry<E, R>(enabled: bool, listeners: seq<Listener<R>>, convert: Converter<E, R>,
                                         resp: QueryResp<E>)
    requires resp.evType != Get
    requires NoPassRaises(enabled, listeners, convert, resp)
    ensures |FlowQueryGenericHandler(enabled, listeners, convert, resp)| == |resp.entries|
  {
  }

  /** Each pass restarts the chain from the first listener: whatever a
      listener answered for entry `j` (a `Stop` included), the pass for the
      next entry begins by calling listener 0 with that entry's request. */
  lemma EveryPassStartsAtFirstListener<E, R>(listeners: seq<Listener<R>>, convert: Converter<E, R>,
                                             resp: QueryResp<E>, j: nat)
    requires 0 < |listeners|
    requires j < |FlowQueryGenericHandler(true, listeners, convert, resp)|
    ensures FlowQueryGenericHandler(true, listeners, convert, resp)[j].trace[0]
         == Invocation(0, [ToRequest(convert, resp, resp.entries[j])])
  {
    var req := ToRequest(convert, resp, resp.entries[j]);
    var p := ReconcileFlow(true, listeners, req);
    assert 0 < |p.trace|;
  }

  /** Entries are reconciled independently: the pass made for entry `j`
      is the pass a response holding entry `j` alone would get. */
  lemma PassDependsOnlyOnItsEntry<E, R>(enabled: bool, listeners: seq<Listener<R>>, convert: Converter<E, R>,
                                        resp: QueryResp<E>, j: nat)
    requires j < |FlowQueryGenericHandler(enabled, listeners, convert, resp)|
    ensures FlowQueryGenericHandler(enabled, listeners, convert, resp)[j]
         == FlowQueryGenericHandler(enabled, listeners, convert, resp.(entries := [resp.entries[j]]))[0]
  {
    var single := resp.(entries := [resp.entries[j]]);
    assert resp.evType != Get;
    assert 0 < |FlowQueryGenericHandler(enabled, listeners, convert, single)|;
  }

  /** With reconciliation disabled a response that is not a pure read still
      makes one `reconcileFlow` call per entry, and none of them invokes a
      listener. */
  lemma DisabledHandlerInvokesNoListener<E, R>(listeners: seq<Listener<R>>, convert: Converter<E, R>, resp: QueryResp<E>)
    requires resp.evType != Get
    ensures |FlowQueryGenericHandler(false, listeners, convert, resp)| == |resp.entries|
    ensures forall j :: 0 <= j < |resp.entries| ==>
      FlowQueryGenericHandler(false, listeners, convert, resp)[j] == Pass([], false)
  {
    NonGetReconcilesEveryEntry(false, listeners, convert, resp);
  }

  /** The passes of a non-`GET` response are pinned down by the prefix
      property: any prefix of `AllPasses` that runs to the last entry, or
      ends at its first raising pass, is exactly what the handler makes. */
  lemma HandlerPassesAreFirstRaiseCut<E, R>(enabled: bool, listeners: seq<Listener<R>>, convert: Converter<E, R>,
                                            resp: QueryResp<E>, q: seq<Pass<R>>)
    requires resp.evType != Get
    requires q <= AllPasses(enabled, listeners, convert, resp, resp.entries)
    requires forall j :: 0 <= j < |q| - 1 ==> !q[j].raised
    requires |q| == |resp.entries| || (0 < |q| && q[|q| - 1].raised)
    ensures q == FlowQueryGenericHandler(enabled, listeners, convert, resp)
  {
    var passes := FlowQueryGenericHandler(enabled, listeners, convert, resp);
    var all := AllPasses(enabled, listeners, convert, resp, resp.entries);
    assert passes == all[..|passes|] && q == all[..|q|];
  }

  /** The for-each over the response entries as the source writes it, each
      entry converted and handed to `RunReconcileFlow`. An exception stops
      the loop. It makes exactly the passes `FlowQueryGenericHandler`
      describes. */
  method RunFlowQueryGenericHandler<E, R>(enabled: bool, listeners: seq<Listener<R>>, convert: Converter<E, R>,
                                          resp: QueryResp<E>)
      returns (passes: seq<Pass<R>>)
    ensures passes == FlowQueryGenericHandler(enabled, listeners, convert, resp)
  {
    passes := [];
    if resp.evType == Get {
      return;
    }
    ghost var all := AllPasses(enabled, listeners, convert, resp, resp.entries);
    var j := 0;
    while j < |resp.entries|
      invariant 0 <= j <= |resp.entries|
      invariant passes == all[..j]
      invariant forall k :: 0 <= k < j ==> !passes[k].raised
      decreases |resp.entries| - j
    {
      var request := ToRequest(convert, resp, resp.entries[j]);
      var trace, raised := RunReconcileFlow(enabled, listeners, request);
      passes := passes + [Pass(trace, raised)];
      assert passes == all[..j + 1];
      if raised {
        HandlerPassesAreFirstRaiseCut(enabled, listeners, convert, resp, passes);
        return;
      }
      j := j + 1;
    }
    HandlerPassesAreFirstRaiseCut(enabled, listeners, convert, resp, passes);
  }
}
