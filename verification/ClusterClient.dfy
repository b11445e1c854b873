/**
 * The cluster client of a child process or worker: the channel's listener
 * registry, the outbox of envelopes that reached the parent, the log of
 * settled requests, and the static singleton slot.
 */
module Cluster {
  import opened Wrappers
  import opened Text
  import opened JsValues
  import opened Transport
  import opened Correlator
  import opened Dispatcher
  import Identity

  /** An event emitted on the application client. */
  datatype ClientEvent = ClientEvent(name: string, payload: Value)

  const MultipleClientsWarning :=
    "Multiple clients created in child process/worker; only the first will handle clustering helpers."

  /** The error event emitted when a reply cannot be sent. */
  function ResponseFailureEvent(kind: string, error: Value): ClientEvent
    requires Truthy(error)
  {
    ClientEvent("error", Obj(map[
      "err" := error,
      "message" := Str("Error when sending " + kind + " response to master process: "
                       + ToString(Get(error, "message")))]))
  }

  /** A JavaScript default parameter: used when the argument is undefined. */
  function Defaulted(arg: Value, default: Value): Value {
    if arg == Undefined then default else arg
  }

  /** The respawn-all envelope, with the delays defaulting to 5000, 500 and 30000 ms. */
  function RespawnEnvelope(clusterDelay: Value, respawnDelay: Value, spawnTimeout: Value): Value {
    Obj(map["_sRespawnAll" := Obj(map[
      "clusterDelay" := Defaulted(clusterDelay, Num(5000)),
      "respawnDelay" := Defaulted(respawnDelay, Num(500)),
      "spawnTimeout" := Defaulted(spawnTimeout, Num(30000))])])
  }

  /** Called without arguments, respawnAll asks for the default delays; the
      envelope carries no request key, so no listener or handler takes it
      for a reply or a request. */
  lemma RespawnEnvelopeShape(clusterDelay: Value, respawnDelay: Value, spawnTimeout: Value)
    ensures RespawnEnvelope(Undefined, Undefined, Undefined) ==
      Obj(map["_sRespawnAll" := Obj(map[
        "clusterDelay" := Num(5000), "respawnDelay" := Num(500), "spawnTimeout" := Num(30000)])])
    ensures forall p :: !Matches(p, RespawnEnvelope(clusterDelay, respawnDelay, spawnTimeout))
    ensures Classify(RespawnEnvelope(clusterDelay, respawnDelay, spawnTimeout)) == Ignored
  {
    var e := RespawnEnvelope(clusterDelay, respawnDelay, spawnTimeout);
    forall p ensures !Matches(p, e) {
      assert KeyField(p.kind) !in e.fields;
    }
  }

  /** The application client: the object graph that fetches read, and the
      events it has emitted. */
  class Client {
    var root: Value
    var events: seq<ClientEvent>

    constructor (root: Value)
      ensures this.root == root && events == []
    {
      this.root := root;
      events := [];
    }
  }

  class ClusterClient {
    const client: Client
    const mode: Mode
    /** The correlator's listeners on the inbound stream, in registration order. */
    var listeners: seq<Pending>
    /** Every envelope that reached the parent, in order. */
    var outbox: seq<Value>
    /** Every request promise that has settled, in order. */
    var settled: seq<Settlement>
    /** The identity the next request's promise gets. */
    var nextId: nat

    /** Identities are fresh, and a request is either pending once or
        settled once, never both. */
    ghost predicate Valid()
      reads this
    {
      Consistent(listeners, settled, nextId)
    }

    /** `new ClusterClient(client, mode)`: the mode argument is overwritten
        by `info.CLUSTER_MANAGER_MODE`, read from `info` as it is at
        construction; when that read throws, no client is made. */
    constructor (client: Client, mode: Value, info: Identity.InfoOutcome)
      requires Identity.ClientMode(info).Some?
      ensures Valid()
      ensures this.client == client && this.mode == Identity.ClientMode(info).value
      ensures listeners == [] && outbox == [] && settled == []
    {
      this.client := client;
      this.mode := Identity.ClientMode(info).value;
      listeners := [];
      outbox := [];
      settled := [];
      nextId := 0;
    }

    /** `send`: the envelope reaches the parent exactly when the promise resolves. */
    method Send(message: Value, callbackError: Value) returns (outcome: SendOutcome)
      modifies this`outbox
      ensures outcome == SendOutcomeOf(mode, callbackError)
      ensures outbox == old(outbox) + (if outcome.Sent? then [message] else [])
    {
      outcome := SendOutcomeOf(mode, callbackError);
      if outcome.Sent? {
        outbox := outbox + [message];
      }
    }

    /** The effect of issuing a request: a listener is registered and the
        envelope sent; a failed send removes the listener again and rejects. */
    twostate predicate Issued(kind: Kind, key: Key, id: nat, callbackError: Value)
      reads this
    {
      var p := Pending(kind, key, id);
      id == old(nextId) && nextId == old(nextId) + 1
      && match SendOutcomeOf(mode, callbackError)
         case Sent =>
           listeners == old(listeners) + [p]
           && outbox == old(outbox) + [RequestEnvelope(kind, key)]
           && settled == old(settled)
         case Failed(e) =>
           listeners == old(listeners)
           && outbox == old(outbox)
           && settled == old(settled) + [Settlement(id, SendFailed(e))]
         case Unsettled =>
           listeners == old(listeners) + [p]
           && outbox == old(outbox)
           && settled == old(settled)
    }

    method Request(kind: Kind, key: Key, callbackError: Value) returns (id: nat)
      requires Valid()
      modifies this`listeners, this`outbox, this`settled, this`nextId
      ensures Valid()
      ensures Issued(kind, key, id, callbackError)
    {
      id := nextId;
      nextId := nextId + 1;
      var p := Pending(kind, key, id);
      listeners := listeners + [p];
      var outcome := Send(RequestEnvelope(kind, key), callbackError);
      if outcome.Failed? {
        assert listeners == old(listeners) + [p] + [];
        SettleOneKeepsConsistent(old(listeners), p, [], settled, nextId, SendFailed(outcome.error));
        listeners := RemoveListener(listeners, id);
        settled := settled + [Settlement(id, SendFailed(outcome.error))];
      }
    }

    /** `fetchClientValues(prop, shard)`. */
    method FetchClientValues(prop: string, shard: Option<int>, callbackError: Value) returns (id: nat)
      requires Valid()
      modifies this`listeners, this`outbox, this`settled, this`nextId
      ensures Valid()
      ensures Issued(FetchProp, Key(prop, shard), id, callbackError)
    {
      id := Request(FetchProp, Key(prop, shard), callbackError);
    }

    /** `broadcastEval(script, cluster)`: the converted script text is both
        what is sent and what replies are matched on. */
    method BroadcastEval(script: Script, cluster: Option<int>, callbackError: Value) returns (id: nat)
      requires Valid()
      modifies this`listeners, this`outbox, this`settled, this`nextId
      ensures Valid()
      ensures Issued(Eval, Key(EvalKey(script), cluster), id, callbackError)
    {
      id := Request(Eval, Key(EvalKey(script), cluster), callbackError);
    }

    /** `respawnAll(...)`: one fire-and-forget envelope, no listener. */
    method RespawnAll(callbackError: Value, clusterDelay: Value := Undefined,
                      respawnDelay: Value := Undefined, spawnTimeout: Value := Undefined)
      returns (outcome: SendOutcome)
      modifies this`outbox
      ensures outcome == SendOutcomeOf(mode, callbackError)
      ensures outbox == old(outbox) +
        (if outcome.Sent? then [RespawnEnvelope(clusterDelay, respawnDelay, spawnTimeout)] else [])
    {
      outcome := Send(RespawnEnvelope(clusterDelay, respawnDelay, spawnTimeout), callbackError);
    }

    /** The effect of `_respond`: the reply is sent, or a failure to send it
        becomes an error event on the application client. */
    twostate predicate Responded(reply: Reply, callbackError: Value)
      reads this, client
    {
      var outcome := SendOutcomeOf(mode, callbackError);
      outbox == old(outbox) + (if outcome.Sent? then [reply.message] else [])
      && client.events == old(client.events) +
           (if outcome.Failed? then [ResponseFailureEvent(reply.kind, outcome.error)] else [])
    }

    method Respond(reply: Reply, callbackError: Value)
      modifies this`outbox, client`events
      ensures Responded(reply, callbackError)
    {
      var outcome := Send(reply.message, callbackError);
      if outcome.Failed? {
        client.events := client.events + [ResponseFailureEvent(reply.kind, outcome.error)];
      }
    }

    /** `_handleMessage`: answer a fetch or evaluation request from the parent. */
    method HandleMessage(msg: Value, evaluated: EvalOutcome, callbackError: Value)
      modifies this`outbox, client`events
      ensures (match DispatchReply(msg, client.root, evaluated)
               case None => outbox == old(outbox) && client.events == old(client.events)
               case Some(reply) => Responded(reply, callbackError))
    {
      match Classify(msg)
      case Ignored =>
      case FetchRequest(path) =>
        if path.Str? {
          var value := FetchPath(client.root, Split(path.s, PathSeparator));
          if value.Some? {
            Respond(Reply("fetchProp", Obj(map["_fetchProp" := path, "_result" := value.value])), callbackError);
          }
        }
      case EvalRequest(code) =>
        var message := match evaluated
          case Returned(v) => Obj(map["_eval" := code, "_result" := v])
          case Threw(e) => Obj(map["_eval" := code, "_error" := e]);
        Respond(Reply("eval", message), callbackError);
    }

    /** The correlator's listeners receive a message: every listener it
        matches removes itself and settles its request. */
    method SettleListeners(msg: Value)
      requires Valid()
      modifies this`listeners, this`settled
      ensures Valid()
      ensures listeners == Unmatched(old(listeners), msg)
      ensures settled == old(settled) + SettlementsFor(old(listeners), msg)
    {
      var remaining, settlements := Emit(listeners, msg);
      DeliveryKeepsConsistent(listeners, settled, nextId, msg);
      listeners, settled := remaining, settled + settlements;
    }

    /** One inbound message: the handler the constructor registers (only in
        subprocess and worker mode) runs first, then the correlator's
        listeners in registration order. */
    method Deliver(msg: Value, evaluated: EvalOutcome, callbackError: Value)
      requires Valid()
      modifies this`listeners, this`settled, this`outbox, client`events
      ensures Valid()
      ensures listeners == Unmatched(old(listeners), msg)
      ensures settled == old(settled) + SettlementsFor(old(listeners), msg)
      ensures (match (if mode == Unrecognised then None else DispatchReply(msg, client.root, evaluated))
               case None => outbox == old(outbox) && client.events == old(client.events)
               case Some(reply) => Responded(reply, callbackError))
    {
      if mode != Unrecognised {
        HandleMessage(msg, evaluated, callbackError);
      }
      SettleListeners(msg);
    }
  }

  /** The static `_singleton` slot of the class. */
  class Registry {
    var instance: ClusterClient?

    constructor ()
      ensures instance == null
    {
      instance := null;
    }

    /** `singleton(client, mode)`: the first call constructs, which throws
        (leaving the slot empty, shown as a null result) when the mode cannot
        be read from `info`; every later call warns on the client it was
        given and returns the stored one. The `mode` argument is ignored. */
    method Singleton(client: Client, mode: Value, info: Identity.InfoOutcome) returns (c: ClusterClient?)
      modifies this, client`events
      ensures instance == c
      ensures old(instance) == null && Identity.ClientMode(info).None? ==>
        c == null && client.events == old(client.events)
      ensures old(instance) == null && Identity.ClientMode(info).Some? ==>
        c != null && fresh(c) && c.client == client && c.mode == Identity.ClientMode(info).value
        && c.Valid() && c.listeners == [] && c.outbox == [] && c.settled == []
        && client.events == old(client.events)
      ensures old(instance) != null ==>
        c == old(instance)
        && client.events == old(client.events) + [ClientEvent("warn", Str(MultipleClientsWarning))]
    {
      if instance == null {
        if Identity.ClientMode(info).Some? {
          instance := new ClusterClient(client, mode, info);
        }
      } else {
        client.events := client.events + [ClientEvent("warn", Str(MultipleClientsWarning))];
      }
      c := instance;
    }
  }
}
