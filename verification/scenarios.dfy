/**
 Worked scenarios of the model on small listener chains: a `Stop` in the
 middle of the chain, a disabled gate, and a query response whose first
 entry is stopped early.
 */
module Scenarios {
  import opened Listeners
  import opened Dispatch
  import opened QueryAdapter
  import opened EnableGate

  /** A listener that lets every request through. */
  function PassAlong(batch: seq<int>): Reply {
    Returns(Continue)
  }

  /** A listener that stops the chain for every request. */
  function Veto(batch: seq<int>): Reply {
    Returns(Stop)
  }

  /** A listener that stops the chain only for requests with a negative
      first element. */
  function VetoNegative(batch: seq<int>): Reply {
    if 0 < |batch| && batch[0] < 0 then Returns(Stop) else Returns(Continue)
  }

  /** With listeners `[A -> Continue, B -> Stop, C -> Continue]`, A and B
      are invoked, C is not, and the call returns normally. */
  lemma StopInTheMiddle(request: int)
    ensures ReconcileFlow(true, [PassAlong, Veto, PassAlong], request)
         == Pass([Invocation(0, [request]), Invocation(1, [request])], false)
  {
    var listeners: seq<Listener<int>> := [PassAlong, Veto, PassAlong];
    assert IsFirstHalt(listeners, [request], 1);
    FirstStopInvokesThroughIt(listeners, request, 1);
    assert Calls(2, [request]) == [Invocation(0, [request]), Invocation(1, [request])];
  }

  /** With `enable` set to `FALSE` and listeners `[A]`, A is never invoked. */
  lemma DisabledByConfiguration(request: int)
    ensures ReconcileFlow(Init(map[EnableConfigKey := "FALSE"]), [PassAlong], request) == Pass([], false)
  {
    InitExamples();
  }

  /** A non-`GET` response with entries `[-1, 5]` and listeners
      `[VetoNegative, PassAlong]`: the first entry stops after one listener,
      the second still runs the whole chain from the top. */
  lemma StopOnOneEntryDoesNotCarryOver()
    ensures FlowQueryGenericHandler(true, [VetoNegative, PassAlong], (e: int, app: string, a: ReconcileAction) => e,
                                    QueryResp(NonGet("update"), "app", [-1, 5]))
         == [Pass([Invocation(0, [-1])], false),
             Pass([Invocation(0, [5]), Invocation(1, [5])], false)]
  {
    var listeners: seq<Listener<int>> := [VetoNegative, PassAlong];
    var convert: Converter<int, int> := (e: int, app: string, a: ReconcileAction) => e;
    var resp := QueryResp(NonGet("update"), "app", [-1, 5]);
    assert IsFirstHalt(listeners, [-1], 0);
    FirstStopInvokesThroughIt(listeners, -1, 0);
    assert AllContinue(listeners, [5]);
    NoHaltInvokesAll(listeners, 5);
    assert Calls(1, [-1]) == [Invocation(0, [-1])];
    assert Calls(2, [5]) == [Invocation(0, [5]), Invocation(1, [5])];
    NonGetReconcilesEveryEntry(true, listeners, convert, resp);
  }
}
