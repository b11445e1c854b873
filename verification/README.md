# Cluster client of discord-hybrid-sharding, modelled in Dafny

`ClusterClient` is the object that every cluster (a child process or a
worker thread started by the cluster manager) uses to talk to its parent.
This project models its core:

- **identity**: the `info` getter. It reads `CLUSTER_MANAGER_MODE` from the
  environment and either reports that no cluster exists, throws, builds a
  record from `SHARD_LIST`, `TOTAL_SHARDS`, `CLUSTER_COUNT` and `CLUSTER`, or
  passes the worker's initialisation data through. The constructor reads its
  mode from this record and ignores its own `mode` argument.
- **transport**: `send`. In subprocess mode it settles through a callback
  that may carry an error. In worker mode it always resolves. In any other
  mode it never settles.
- **request/response correlation**: `fetchClientValues` and `broadcastEval`.
  Each registers a listener on the inbound stream and sends an envelope
  keyed by the request's text and target. The listener matches the echoed
  key pair, removes itself and settles its promise: it rejects when the reply
  carries an error and resolves otherwise. If the send fails, the listener is
  removed and the promise is rejected.
- **inbound dispatch**: `_handleMessage` and `_respond`. They answer the
  parent's property fetches (a dotted path walked over the application
  object) and evaluations. A failure to send a reply becomes an `error`
  event on the application client.
- `respawnAll`, a fire-and-forget envelope with default delays.
- the static `singleton`.

Modules:

| file | module | contents |
|---|---|---|
| `Wrappers.dfy` | `Wrappers` | `Option` |
| `Text.dfy` | `Text` | `String.prototype.split` and `Array.prototype.join` on one separator; decimal rendering of numbers |
| `JsValues.dfy` | `JsValues` | JavaScript values as a tree: truthiness, property access, template-literal conversion |
| `Transport.dfy` | `Transport` | the transport mode and the settlement of `send` |
| `Correlator.dfy` | `Correlator` | pending requests, reply matching, the listener visit loop, and the registry invariant |
| `Dispatcher.dfy` | `Dispatcher` | classifying inbound requests, walking property paths, and building replies |
| `Identity.dfy` | `Identity` | the `info` getter and the constructor's mode |
| `ClusterClient.dfy` | `Cluster` | the stateful client (listeners, outbox, settled log) and the singleton slot |

The stateful client keeps four fields:

- the correlator's **listeners**, in registration order;
- the **outbox**: every envelope that reached the parent;
- the **settled** log: every request promise that has settled, with its outcome;
- a counter that gives each request promise an identity. This identity
  exists only in the model; it is never sent on the wire.

`Valid()` is the registry invariant. Identities are distinct. A request is
pending at most once. No request is both pending and settled. Every
operation preserves it. Together with `Correlator.SettledNeverSettleAgain`,
this means each request promise settles at most once.

The inbound stream is modelled by `Deliver`. The `_handleMessage` handler
is registered in the constructor, so it runs first. Then the correlator's
listeners run, over the snapshot of listeners taken when the message
arrives (Node's `emit` semantics). Node's `removeListener` removes the most
recently added occurrence. The replies and the failure reports from send
callbacks are parameters.

A fetch whose path is missing only at its last segment is answered with
`undefined` (`Dispatcher.MissingLastSegmentRepliesUndefined`). A missing
intermediate segment makes the walk read a property of `undefined`, the
async handler throws, and no reply is sent
(`Dispatcher.NullishIntermediateSendsNothing`).

## Model

| member | source | states |
|---|---|---|
| `Transport.SendOutcomeOf` | ClusterClient.js:104-117 | in worker mode `send` resolves; in subprocess mode it resolves exactly when the callback error is falsy and otherwise rejects with that error; in any other mode it never settles |
| `Cluster.ClusterClient.Send` | ClusterClient.js:104-117 | the envelope is appended to the outbox exactly when the send resolves, and nothing else changes |
| `Cluster.ClusterClient.constructor` | ClusterClient.js:9-26 | a new client keeps the application client; its mode is the one `info` gives (`Identity.ClientMode`), whatever `mode` argument was passed; it has no listeners, an empty outbox and settled log, and satisfies the registry invariant |
| `Cluster.ClusterClient.Request` | ClusterClient.js:130-145 | issuing a request takes a fresh identity. If the send resolves, the listener is registered and the envelope sent. If it fails, the listeners are as before and the promise is rejected with the send error. If it never settles, the listener stays registered and nothing is sent. The registry invariant is preserved |
| `Cluster.ClusterClient.FetchClientValues` | ClusterClient.js:129-146 | a fetch request is keyed by the property path and the shard, with the effect of `Request` |
| `Cluster.ClusterClient.BroadcastEval` | ClusterClient.js:159-177 | an eval request is keyed by the converted script text (a function becomes `(source)(this)`) and the cluster, with the effect of `Request` |
| `Correlator.RequestEnvelope` | ClusterClient.js:141 | the request envelope is an object with exactly the key field and the target field of its kind |
| `Correlator.MatchesIsStrictEquality` | ClusterClient.js:134-137 | a message matches a listener exactly when it is truthy and both key fields are strictly equal to the request's; a matching reply rejects with a truthy `_error` and otherwise resolves with `_result` |
| `JsValues.GetNamedField` | ClusterClient.js:134 | a property name that is neither `length` nor a canonical array index (any other name, `shard1` included) is read from an object's own fields and is undefined on every other value |
| `Correlator.MatchesEchoOfRequest` | ClusterClient.js:133-141 | a reply that echoes the request envelope's two fields, with or without a result or error, matches the listener of that request |
| `Correlator.UnmatchedMembers` | ClusterClient.js:133-135 | after a message, a listener remains registered if and only if it was registered and the message does not match it |
| `Correlator.SettlementMembers` | ClusterClient.js:133-138 | every registered listener the message matches settles its request with the reply's outcome, and every settlement comes from such a listener |
| `Correlator.PartitionSize` | ClusterClient.js:133-135 | each listener either stays or settles, so the remaining listeners and the settlements add up to the listeners before the message |
| `Correlator.NoMatchNoChange` | ClusterClient.js:134 | a message that matches no listener changes no listener and settles nothing |
| `Correlator.FalsyMessageSettlesNothing` | ClusterClient.js:134 | a falsy message is ignored by every listener |
| `Correlator.SameKeySettledTogether` | ClusterClient.js:133-139 | two pending requests with the same kind, text and target are both settled by one matching reply, with the same outcome |
| `Correlator.RemoveListenerAt` | ClusterClient.js:135 | removing a listener by identity removes exactly that entry when no listener registered after it has the same identity |
| `Correlator.RemoveKeepsDistinct` | ClusterClient.js:135 | after a listener is removed, the remaining listeners keep distinct identities and none of them has the removed one's |
| `Correlator.SettledNeverSettleAgain` | ClusterClient.js:135-138 | under the registry invariant, no message settles a request that has already settled |
| `Correlator.SettleOneKeepsConsistent` | ClusterClient.js:135-138 | a listener that removes itself and settles its request keeps the registry invariant |
| `Correlator.SettlementsFresh` | ClusterClient.js:133-138 | a request a message settles was pending: its identity was issued, it has not settled before, and it no longer has a listener |
| `Correlator.UnmatchedDistinct` | ClusterClient.js:133-135 | the listeners a message leaves keep distinct identities |
| `Correlator.SettlementsDistinct` | ClusterClient.js:133-138 | one message settles each request at most once |
| `Correlator.DeliveryKeepsConsistent` | ClusterClient.js:133-139 | delivering a message to all listeners keeps the registry invariant |
| `Correlator.Emit` | ClusterClient.js:133-139 | visiting the snapshot of listeners in order leaves the unmatched ones, in order, and settles the matched ones, in order |
| `Cluster.ClusterClient.SettleListeners` | ClusterClient.js:133-139 | the client's listeners become the unmatched ones; the settled log grows by the matched requests' settlements; the invariant is kept |
| `Dispatcher.FetchPath` | ClusterClient.js:201-203 | the traversal loop computes the sequential property access over the path, and fails exactly when it reads from undefined or null |
| `Dispatcher.ResolveAppend` | ClusterClient.js:203 | walking a path in two parts is walking the first, then the second from where the first ended |
| `Dispatcher.MissingLastSegment` | ClusterClient.js:203 | a property missing from the object reached by the path yields undefined |
| `Dispatcher.NullishIntermediate` | ClusterClient.js:203 | reading further from an undefined or null value fails |
| `Dispatcher.DispatchReply` | ClusterClient.js:198-211 | a falsy message, or one with neither request field, gets no reply. A fetch with a string path is answered with the path and its resolved value exactly when the walk succeeds; a non-string path gets no reply. An eval is answered exactly once, echoing the script, with a result or an error according to the evaluator |
| `Dispatcher.MissingLastSegmentRepliesUndefined` | ClusterClient.js:200-204 | a fetch whose last segment is missing from an existing object is answered with an undefined result |
| `Dispatcher.NullishIntermediateSendsNothing` | ClusterClient.js:200-204 | a fetch whose path passes through undefined or null is not answered |
| `Cluster.ClusterClient.HandleMessage` | ClusterClient.js:198-211 | the handler sends exactly the reply `DispatchReply` determines, through `Respond`, and changes nothing when there is none |
| `Cluster.ClusterClient.Respond` | ClusterClient.js:220-232 | the reply reaches the outbox when the send resolves. A failed send emits one `error` event holding the error and the message `Error when sending <kind> response to master process: <error.message>` |
| `Cluster.ClusterClient.Deliver` | ClusterClient.js:28-41 | an inbound message is handled by the dispatcher (only in subprocess and worker mode), then settles the matching listeners; the invariant is kept |
| `Cluster.ClusterClient.RespawnAll` | ClusterClient.js:189-191 | one respawn envelope is sent, with no listener; it reaches the outbox exactly when the send resolves |
| `Cluster.RespawnEnvelopeShape` | ClusterClient.js:189-190 | without arguments the delays are 5000, 500 and 30000 ms; the respawn envelope matches no pending request and is not a request to this child |
| `Cluster.Registry.Singleton` | ClusterClient.js:240-250 | the first call constructs and stores a fresh client, with no warning, whose mode comes from `info` and not from the `mode` argument; when reading that mode throws, the slot stays empty. Every later call returns the stored client and emits exactly one `warn` event on the client it was given |
| `Identity.ResolveInfo` | ClusterClient.js:83-97 | no cluster exactly when the mode variable is unset or empty. The configuration error is thrown exactly when it is set to anything but `worker` or `process`. Worker mode yields the worker data. Subprocess mode without `SHARD_LIST` throws a TypeError; otherwise it yields one converted entry per comma-separated piece and the three converted counters |
| `Identity.ParseShardList` | ClusterClient.js:89-91 | the shard list has one entry per comma-separated piece (commas plus one), each the conversion of its piece, in order |
| `Identity.ModeOf` | ClusterClient.js:107-112 | the mode is subprocess exactly for the string `process` and worker exactly for `worker`, by strict equality |
| `Identity.ClientMode` | ClusterClient.js:20 | the constructor's mode read throws exactly when `info` is undefined, throws, or is a nullish worker record. Otherwise a subprocess record gives subprocess mode and a worker record gives the mode its own field names |
| `Text.JoinSplit` | ClusterClient.js:201 | joining the pieces of a split with the separator gives back the string |
| `Text.SplitJoin` | ClusterClient.js:201 | splitting the join of separator-free pieces gives back the pieces |
| `Text.SplitLength` | ClusterClient.js:90 | a split has one more piece than the string has separators |
| `Text.SplitPiecesAreFree` | ClusterClient.js:201 | no piece of a split contains the separator |
| `JsValues.GetElement` | ClusterClient.js:203 | reading the canonical decimal name of an in-range index from an array yields that element |
| `JsValues.ArrayIndexOfIndex` | ClusterClient.js:203 | the decimal rendering of an index is read back as that array index |
| `JsValues.ToStringOfNumber` | ClusterClient.js:224 | a number inserted into the failure message is written in decimal, with a minus sign when negative, and its digits read back as its magnitude |
| `Text.NatToStringRoundTrip` | ClusterClient.js:203 | the decimal rendering of a number reads back as that number |

## Left out

- The lifecycle forwarding the constructor sets up (`_ready`, `_disconnect` and `_reconnecting` on the client's events, lines 30-38 and 42-50). It needs the event source of the application client, which is not part of this model.
- The getters `id`, `ids` and `count` (lines 59-77). They are plain reads of `info` or of the client's shard table.
- `getinfo` (lines 255-269). It is the same computation as the `info` getter, modelled once as `Identity.ResolveInfo`.
- The real transports: `process.send`, `parentPort.postMessage` and `require('worker_threads')`. The callback error, the worker data and the evaluator's outcome are parameters.
- The interleaving of asynchronous callbacks. A failed send is treated as settling together with the request that made it. A message arriving between the send and its failure callback is not modelled.
- Cluster.ClusterClient.HandleMessage: the evaluation is taken as already finished, so other messages arriving while `_eval` is awaited are not modelled. Two cases make the async handler throw, and its unhandled rejection is modelled only as "no reply" (`Dispatcher.DispatchReply` gives `None`): a path walk that reads a property of `undefined` or `null`, and a truthy `_fetchProp` that is not a string, whose `split` is not a function (line 201).
- The object graph of the application client is a finite tree of values. Cycles, getters and the prototype chain (inherited properties and methods) are not modelled. Every modelled value is plain data, so `parentPort.postMessage` (line 113) always succeeds and `Transport.SendOutcomeOf` gives `Sent` in worker mode. In the source a function-valued field makes `postMessage` throw a `DataCloneError` inside the promise executor, which rejects `send`; in worker mode too `_respond` would then emit its error event, and a request would be rejected.
- Identity.ResolveInfo: JavaScript's `Number()` conversion is a parameter, not defined here.
- `Util.makeError` and `Util.makePlainError` are opaque. The error value is carried as received.
- Numbers are integers. Floating point, `NaN` and the string forms of non-integers are not modelled.
- JsValues.ToStringOfNumber: the all-digit rendering agrees with JavaScript only for integers of magnitude below 10^21. JavaScript writes larger magnitudes in exponent form (`${1e21}` is `1e+21`), and it holds integers exactly only up to 2^53, while the model's integers are unbounded. `JsValues.ToString` has the same limit.
- Cluster.ClusterClient.FetchClientValues: the shard argument is an integer or absent. Other argument types are not modelled.
- Cluster.ClusterClient.BroadcastEval: the cluster argument is an integer or absent, and the script is a string or a function given by its source text (`Correlator.Script`). Other argument types are not modelled.
- Cluster.ClusterClient.constructor: it requires that `Identity.ClientMode(info)` is defined. When reading the mode throws, the source's constructor throws and no object exists; `Cluster.Registry.Singleton` models that case by leaving the slot empty and returning null. The `mode` argument of the constructor and of `singleton` is accepted and ignored, as in the source.
- Strings are sequences of Unicode code points. JavaScript measures and indexes strings in UTF-16 code units, so `length` and index reads in a fetched path differ from JavaScript for characters outside the Basic Multilingual Plane.
- Correlation by a unique request identifier and a timeout on pending requests do not exist in the code, so they are not modelled. Two requests with the same key are settled by one reply (`Correlator.SameKeySettledTogether`), and a request whose reply never comes stays pending.
