# Flow reconciliation dispatch, modelled in Dafny

This project models the reconciliation-dispatch core of the Floodlight
controller's flow cache, `FlowReconcileManager`. When flows must be checked
again against current controller policy, this core decides which registered
flow reconcile listeners see each flow, in what order, and when processing
stops early. It has three parts:

- **Chain-of-responsibility dispatch** (`Dispatch`). `reconcileFlow` wraps one
  `OFMatchReconcile` request in a one-element list. It then calls the ordered
  listeners one by one and stops at the first one that returns `STOP`.
  Nothing catches a listener's exception, so an exception also ends the pass
  and reaches the caller.
- **Query-result adapter** (`QueryAdapter`). `flowQueryGenericHandler` ignores
  responses to `GET` queries. For any other response it converts each cache
  entry with the query's application name and the action `UPDATE_PATH`. Each
  converted entry then gets its own `reconcileFlow` pass, in entry order,
  starting again from the first listener.
- **Enablement gate** (`EnableGate`). `init` sets `flowReconcileEnabled` from
  the `enable` configuration value. It defaults to true. Only a value equal to
  `"false"`, ignoring case, turns it off: any other value, including `"no"`
  and `"0"`, leaves the gate enabled. When it is off, `reconcileFlow` does
  nothing.

What the model observes is a trace of listener calls. Each call is recorded
as an `Invocation(index, batch)`: the listener's position in the ordered
sequence and the list it received. A pass is `Pass(trace, raised)`. Listeners
are pure functions from the request list to a `Reply`, which is either
`Returns(Continue)`, `Returns(Stop)` or `Throws`. The ordered listener sequence
(`getOrderedListeners()`) is a parameter. `toOFMatchReconcile` is a parameter
`convert` of type `(entry, applInstName, action) -> request`.

The handler's passes are stated against a reference definition,
`QueryAdapter.AllPasses`: the sequence holding, for every entry, the pass that
entry alone would get. The handler makes a prefix of it, cut right after the
first pass that raises.

Files: `listeners.dfy` (shared vocabulary), `dispatch.dfy`,
`query_adapter.dfy`, `enable_gate.dfy`, `scenarios.dfy` (worked scenarios).
In `dispatch.dfy` the inline loop of `reconcileFlow` (lines 79-92) is split
into `DispatchPass`, one pass over the listeners for a given list, and
`ReconcileFlow`, which adds the gate check and the one-element list.

## Model

All source cells refer to `src/main/java/net/floodlightcontroller/flowcache/FlowReconcileManager.java`.

| member | source | states |
|---|---|---|
| Dispatch.DispatchFrom | src/main/java/net/floodlightcontroller/flowcache/FlowReconcileManager.java:84-92 | Starting from listener `i`: the calls are listeners `i, i+1, …` in order, each receiving the same list. Every call but the last returned `Continue`. The walk stops early only after a halting reply. It raises exactly when the last listener called threw. |
| Dispatch.DispatchPass | src/main/java/net/floodlightcontroller/flowcache/FlowReconcileManager.java:84-92 | The listeners invoked are a prefix of the ordered sequence, with nothing skipped, repeated or reordered. Call `k` is listener `k` and receives the given list. All but the last returned `Continue`. A shorter-than-full trace ends on `Stop` or an exception. |
| Dispatch.ReconcileFlow | src/main/java/net/floodlightcontroller/flowcache/FlowReconcileManager.java:71-93 | When disabled, no listener is invoked and nothing is raised. Otherwise call `k` goes to listener `k` with the one-element list `[request]`. At most all listeners are invoked. |
| Dispatch.DispatchTraceIsCalls | src/main/java/net/floodlightcontroller/flowcache/FlowReconcileManager.java:79-88 | A pass's trace is exactly the first `|trace|` listener positions, and every one of those calls receives the same list. |
| Dispatch.DispatchLengthIsFirstHalt | src/main/java/net/floodlightcontroller/flowcache/FlowReconcileManager.java:84-92 | For `n > 0`, exactly `n` listeners are invoked iff listener `n-1` is the first to halt, or iff there are `n` listeners and none halts. In that case the pass raises iff listener `n-1` threw. |
| Dispatch.FirstStopInvokesThroughIt | src/main/java/net/floodlightcontroller/flowcache/FlowReconcileManager.java:84-92 | If listener `i` is the first to return `STOP`, exactly listeners `0..i` are invoked, each with `[request]`, and the pass returns normally. |
| Dispatch.FirstThrowInvokesThroughIt | src/main/java/net/floodlightcontroller/flowcache/FlowReconcileManager.java:88 | If listener `i` is the first to throw, exactly listeners `0..i` are invoked and the exception reaches the caller. |
| Dispatch.NoHaltInvokesAll | src/main/java/net/floodlightcontroller/flowcache/FlowReconcileManager.java:84-92 | If no listener halts, all `n` listeners are invoked in order and the pass returns normally. An empty sequence gives zero calls. |
| Dispatch.DisabledInvokesNothing | src/main/java/net/floodlightcontroller/flowcache/FlowReconcileManager.java:72-74 | With the gate off, `reconcileFlow` invokes no listener and raises nothing, for any request and any listener sequence. |
| Dispatch.RunReconcileFlow | src/main/java/net/floodlightcontroller/flowcache/FlowReconcileManager.java:71-93 | The imperative loop (gate check, one-element list, for-each with a break on `STOP`) produces exactly the pass that `ReconcileFlow` describes. |
| QueryAdapter.ReconcileEntries | src/main/java/net/floodlightcontroller/flowcache/FlowReconcileManager.java:114-119 | The passes made are a prefix of `AllPasses`, so they follow entry order. No pass but the last raised. If the passes stop before the last entry, the last one made raised. |
| QueryAdapter.FlowQueryGenericHandler | src/main/java/net/floodlightcontroller/flowcache/FlowReconcileManager.java:110-122 | A `GET` response makes no `reconcileFlow` call. Otherwise pass `j` is the fresh pass of entry `j`, converted with the application name and `UPDATE_PATH`. Passes stop before the last entry only after a pass that raised. |
| QueryAdapter.NonGetReconcilesEveryEntry | src/main/java/net/floodlightcontroller/flowcache/FlowReconcileManager.java:111-119 | A non-`GET` response with `k` entries, none of whose passes raises, makes exactly `k` `reconcileFlow` calls. |
| QueryAdapter.EveryPassStartsAtFirstListener | src/main/java/net/floodlightcontroller/flowcache/FlowReconcileManager.java:114-119 | With the gate on, every entry's pass begins with listener 0 receiving that entry's request. A `STOP` on an earlier entry does not carry over. |
| QueryAdapter.PassDependsOnlyOnItsEntry | src/main/java/net/floodlightcontroller/flowcache/FlowReconcileManager.java:114-119 | The pass made for entry `j` equals the pass a response holding only entry `j` would get. |
| QueryAdapter.DisabledHandlerInvokesNoListener | src/main/java/net/floodlightcontroller/flowcache/FlowReconcileManager.java:110-122 | With the gate off, a non-`GET` response still makes one `reconcileFlow` call per entry, and none of those calls invokes a listener. |
| QueryAdapter.HandlerPassesAreFirstRaiseCut | src/main/java/net/floodlightcontroller/flowcache/FlowReconcileManager.java:114-119 | Take any prefix of `AllPasses` in which only the last pass may raise, and which either covers every entry or ends on a raising pass. For a non-`GET` response, that prefix is exactly what the handler makes. |
| QueryAdapter.RunFlowQueryGenericHandler | src/main/java/net/floodlightcontroller/flowcache/FlowReconcileManager.java:110-122 | The imperative handler loop (skip on `GET`; convert and dispatch each entry; an exception stops the loop) makes exactly the passes of `FlowQueryGenericHandler`. |
| EnableGate.CharsMatchIsLowerFold | src/main/java/net/floodlightcontroller/flowcache/FlowReconcileManager.java:162 | With ASCII case mapping, Java's per-character ignore-case test (equal, equal upper-cased, or equal after upper- then lower-casing) holds iff the lower-cased characters are equal. |
| EnableGate.RegionMatchesIgnoreCase | src/main/java/net/floodlightcontroller/flowcache/FlowReconcileManager.java:162 | On equal-length strings, the character-by-character ignore-case comparison succeeds iff the strings are equal after lower-casing. |
| EnableGate.EqualsIgnoreCase | src/main/java/net/floodlightcontroller/flowcache/FlowReconcileManager.java:161-162 | `equalsIgnoreCase` holds iff the lengths match and the strings are equal after lower-casing. |
| EnableGate.EqualsFalseIffFalseSpelling | src/main/java/net/floodlightcontroller/flowcache/FlowReconcileManager.java:161-164 | A value equals `"false"` ignoring case iff it is one of the 32 upper/lower-case spellings of `false`. |
| EnableGate.Init | src/main/java/net/floodlightcontroller/flowcache/FlowReconcileManager.java:157-164 | The gate is enabled iff the `enable` key is absent or its value is not a case spelling of `false`. The default is enabled. |
| EnableGate.InitExamples | src/main/java/net/floodlightcontroller/flowcache/FlowReconcileManager.java:158-164 | These values disable the gate: `"false"`, `"FALSE"`, `"False"`, `"fAlSe"`. These leave it enabled: an absent key, `"true"`, `"no"`, `"0"`, `""`, `" false"`, `"falsey"`, and a differently-cased key. |
| Scenarios.StopInTheMiddle | src/main/java/net/floodlightcontroller/flowcache/FlowReconcileManager.java:84-92 | For listeners `[A→CONTINUE, B→STOP, C→CONTINUE]`, exactly A and B are invoked, each with `[request]`, and the call returns normally. |
| Scenarios.DisabledByConfiguration | src/main/java/net/floodlightcontroller/flowcache/FlowReconcileManager.java:72-74 | With `enable = "FALSE"`, listener A is never invoked. |
| Scenarios.StopOnOneEntryDoesNotCarryOver | src/main/java/net/floodlightcontroller/flowcache/FlowReconcileManager.java:114-119 | In a two-entry non-`GET` response, a `STOP` on the first entry after one listener still leaves the second entry a full pass from listener 0. |

## Left out

- Listener registration (`addFlowReconcileListener`, `removeFlowReconcileListener`, `clearFlowReconcileListeners`, lines 42-64): these delegate to `ListenerDispatcher`, which is not part of this model, and its ordering rule is not visible. The ordered listener sequence is therefore a parameter.
- The `synchronized` modifiers (lines 42, 57, 62) and every other concurrency concern: the model is sequential.
- Logging and trace-string building (lines 45-53, 76-78, 85-87, 166), and the listener's `getName`, which only feeds logging.
- Module wiring: `getModuleServices`, `getServiceImpls`, `getModuleDependencies`, `startUp`, and the creation of the empty `ListenerDispatcher` in `init` (lines 126-171, 154-155). The no-op `updateFlowForDestinationDevice` and `updateFlowForSourceDevice` (lines 96-107) have no behaviour to state.
- The internals of `toOFMatchReconcile`: they are foreign code, so the conversion is an uninterpreted function parameter.
- The reuse of one mutable `OFMatchReconcile` object across entries (lines 112, 116). Each pass receives the freshly converted value, and aliasing effects are not modelled.
- The other `FCQueryEvType` values and `ReconcileAction` values: those enums are not part of this model. Only `GET` and `UPDATE_PATH` are distinguished.
- Dispatch.ReconcileFlow: listeners are pure functions of the request list, so three things are not modelled. A listener that changes the request in place is not modelled, so later listeners are shown the unchanged request. A listener that changes the list `ofmRcList` itself (line 88) is not modelled, so every call is shown the same one-element list. A listener whose reply depends on its own earlier calls is not modelled, so the same listener and list always give the same reply. `QueryAdapter.PassDependsOnlyOnItsEntry` relies on the last two.
- EnableGate.EqualsIgnoreCase: case mapping is ASCII only. Java's full Unicode case mapping (for example, `'ſ'` matching `'s'`) is not modelled, so values that match `"false"` only through non-ASCII case mapping count as enabling.
