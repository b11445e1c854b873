/**
 * The request correlator: outbound property-fetch and evaluation requests,
 * the one-shot listeners that wait for their replies, and which pending
 * requests one inbound message settles. Matching is by payload equality
 * only; there is no sequence number, so identical requests share replies.
 */
module Correlator {
  import opened Wrappers
  import opened Text
  import opened JsValues

  /** The two request kinds that wait for a reply. */
  datatype Kind = FetchProp | Eval

  /** What a request is matched on: the property path or the script text,
      and the shard or cluster it targets (undefined for all). */
  datatype Key = Key(text: string, target: Option<int>)

  /** The argument of broadcastEval: code text, or a function given by its
      source text. */
  datatype Script = Code(text: string) | Function(source: string)

  /** One listener registered on the inbound stream. `id` names the caller's
      promise in this model; it is never put on the wire. */
  datatype Pending = Pending(kind: Kind, key: Key, id: nat)

  /** How a request's promise settled. */
  datatype Outcome =
    | Resolved(value: Value)      // a reply without a truthy _error
    | RemoteError(error: Value)   // a reply with a truthy _error
    | SendFailed(error: Value)    // the request could not be sent

  /** One entry of the settlement log. */
  datatype Settlement = Settlement(id: nat, outcome: Outcome)

  /** The field that carries the path or script, in request and reply. */
  function KeyField(kind: Kind): string {
    match kind
    case FetchProp => "_sFetchProp"
    case Eval => "_sEval"
  }

  /** The field that carries the shard or cluster, in request and reply. */
  function TargetField(kind: Kind): string {
    match kind
    case FetchProp => "_sFetchPropShard"
    case Eval => "_sEvalShard"
  }

  function TargetValue(target: Option<int>): Value {
    match target
    case None => Undefined
    case Some(n) => Num(n)
  }

  /** The text broadcastEval sends and matches for a script: a function is
      turned into an invocation of itself on the client, code is kept. */
  function EvalKey(script: Script): string {
    match script
    case Code(text) => text
    case Function(source) => "(" + source + ")(this)"
  }

  /** The envelope a request sends: its key and its target. */
  function RequestEnvelope(kind: Kind, key: Key): (e: Value)
    ensures e.Obj? && e.fields.Keys == {KeyField(kind), TargetField(kind)}
  {
    Obj(map[KeyField(kind) := Str(key.text), TargetField(kind) := TargetValue(key.target)])
  }

  /** Whether an inbound message settles the pending request: it is an
      object whose two key fields equal the request's (see
      `MatchesIsStrictEquality` for the listener's own test). */
  predicate Matches(p: Pending, msg: Value) {
    msg.Obj?
    && OwnField(msg, KeyField(p.kind)) == Str(p.key.text)
    && OwnField(msg, TargetField(p.kind)) == TargetValue(p.key.target)
  }

  /** How a matching reply settles a request: rejected with `_error` when
      that is truthy, resolved with `_result` otherwise. */
  function ReplyOutcome(msg: Value): Outcome
    requires msg.Obj?
  {
    var error := OwnField(msg, "_error");
    if Truthy(error) then RemoteError(error) else Resolved(OwnField(msg, "_result"))
  }

  /** `Matches` is the listener's test: the message is truthy and its two key
      fields are strictly equal to the request's; and a matching reply's
      outcome reads `_error` and `_result` as property accesses do. */
  lemma MatchesIsStrictEquality(p: Pending, msg: Value)
    ensures Matches(p, msg) <==>
      Truthy(msg)
      && Get(msg, KeyField(p.kind)) == Str(p.key.text)
      && Get(msg, TargetField(p.kind)) == TargetValue(p.key.target)
    ensures Matches(p, msg) ==>
      ReplyOutcome(msg) ==
        (if Truthy(Get(msg, "_error")) then RemoteError(Get(msg, "_error"))
         else Resolved(Get(msg, "_result")))
  {
    if Truthy(msg) {
      assert !IsDigit(KeyField(p.kind)[|KeyField(p.kind)| - 1]);
      assert !IsDigit(TargetField(p.kind)[|TargetField(p.kind)| - 1]);
      assert !IsDigit("_error"[5]) && !IsDigit("_result"[6]);
      GetNamedField(msg, KeyField(p.kind));
      GetNamedField(msg, TargetField(p.kind));
      GetNamedField(msg, "_error");
      GetNamedField(msg, "_result");
    }
  }

  /** The listeners a message leaves in place, in registration order. */
  function Unmatched(ps: seq<Pending>, msg: Value): seq<Pending>
    decreases |ps|
  {
    if ps == [] then []
    else
      var rest := Unmatched(ps[..|ps| - 1], msg);
      if Matches(ps[|ps| - 1], msg) then rest else rest + [ps[|ps| - 1]]
  }

  /** The settlements a message causes, in registration order. */
  function SettlementsFor(ps: seq<Pending>, msg: Value): seq<Settlement>
    decreases |ps|
  {
    if ps == [] then []
    else
      var rest := SettlementsFor(ps[..|ps| - 1], msg);
      var p := ps[|ps| - 1];
      if Matches(p, msg) then rest + [Settlement(p.id, ReplyOutcome(msg))] else rest
  }

  /** Node's removeListener: drop the most recently registered occurrence. */
  function RemoveListener(ps: seq<Pending>, id: nat): seq<Pending>
    decreases |ps|
  {
    if ps == [] then []
    else if ps[|ps| - 1].id == id then ps[..|ps| - 1]
    else RemoveListener(ps[..|ps| - 1], id) + [ps[|ps| - 1]]
  }

  predicate DistinctIds(ps: seq<Pending>) {
    forall i, j :: 0 <= i < j < |ps| ==> ps[i].id != ps[j].id
  }

  predicate DistinctSettlements(log: seq<Settlement>) {
    forall i, j :: 0 <= i < j < |log| ==> log[i].id != log[j].id
  }

  /** The message's key fields equal the fields of the envelope the request
      sent: what is matched is exactly what was sent. */
  lemma MatchesEchoOfRequest(p: Pending, msg: Value)
    ensures Matches(p, msg) <==>
      Truthy(msg)
      && Get(msg, KeyField(p.kind)) == Get(RequestEnvelope(p.kind, p.key), KeyField(p.kind))
      && Get(msg, TargetField(p.kind)) == Get(RequestEnvelope(p.kind, p.key), TargetField(p.kind))
  {
    assert KeyField(p.kind) != TargetField(p.kind);
  }

  /** A listener stays exactly when the message does not match it. */
  lemma {:induction false} UnmatchedMembers(ps: seq<Pending>, msg: Value)
    ensures forall p :: p in Unmatched(ps, msg) <==> p in ps && !Matches(p, msg)
    decreases |ps|
  {
    if ps != [] {
      var init := ps[..|ps| - 1];
      UnmatchedMembers(init, msg);
      assert ps == init + [ps[|ps| - 1]];
    }
  }

  /** A matching listener is settled with the reply's outcome, and every
      settlement belongs to a matching listener. */
  lemma {:induction false} SettlementMembers(ps: seq<Pending>, msg: Value)
    ensures forall p :: p in ps && Matches(p, msg) ==>
      Settlement(p.id, ReplyOutcome(msg)) in SettlementsFor(ps, msg)
    ensures forall s :: s in SettlementsFor(ps, msg) ==>
      msg.Obj? && s.outcome == ReplyOutcome(msg)
      && exists p :: p in ps && Matches(p, msg) && p.id == s.id
    decreases |ps|
  {
    if ps != [] {
      var init := ps[..|ps| - 1];
      SettlementMembers(init, msg);
      assert ps == init + [ps[|ps| - 1]];
      forall s | s in SettlementsFor(ps, msg)
        ensures exists p :: p in ps && Matches(p, msg) && p.id == s.id
      {
        if s in SettlementsFor(init, msg) {
          var p :| p in init && Matches(p, msg) && p.id == s.id;
          assert p in ps;
        } else {
          assert ps[|ps| - 1] in ps;
        }
      }
    }
  }

  /** Every listener is either left in place or settled, never both. */
  lemma {:induction false} PartitionSize(ps: seq<Pending>, msg: Value)
    ensures |Unmatched(ps, msg)| + |SettlementsFor(ps, msg)| == |ps|
    decreases |ps|
  {
    if ps != [] {
      PartitionSize(ps[..|ps| - 1], msg);
    }
  }

  /** A message that matches no listener changes nothing. */
  lemma {:induction false} NoMatchNoChange(ps: seq<Pending>, msg: Value)
    requires forall p :: p in ps ==> !Matches(p, msg)
    ensures Unmatched(ps, msg) == ps
    ensures SettlementsFor(ps, msg) == []
    decreases |ps|
  {
    if ps != [] {
      var init, last := ps[..|ps| - 1], ps[|ps| - 1];
      forall p | p in init ensures !Matches(p, msg) {
        var k :| 0 <= k < |init| && init[k] == p;
        assert ps[k] == p;
      }
      NoMatchNoChange(init, msg);
      assert last in ps;
      assert init + [last] == ps;
    }
  }

  /** A falsy message (undefined, null, false, 0, "") settles nothing. */
  lemma FalsyMessageSettlesNothing(ps: seq<Pending>, msg: Value)
    requires !Truthy(msg)
    ensures Unmatched(ps, msg) == ps
    ensures SettlementsFor(ps, msg) == []
  {
    NoMatchNoChange(ps, msg);
  }

  /** One reply settles every outstanding request with the same kind and
      key: identical requests cannot be told apart. */
  lemma SameKeySettledTogether(ps: seq<Pending>, msg: Value, p: Pending, q: Pending)
    requires p in ps && q in ps
    requires p.kind == q.kind && p.key == q.key
    requires Matches(p, msg)
    ensures msg.Obj?
    ensures p !in Unmatched(ps, msg) && q !in Unmatched(ps, msg)
    ensures Settlement(p.id, ReplyOutcome(msg)) in SettlementsFor(ps, msg)
    ensures Settlement(q.id, ReplyOutcome(msg)) in SettlementsFor(ps, msg)
  {
    assert Matches(q, msg);
    UnmatchedMembers(ps, msg);
    SettlementMembers(ps, msg);
  }

  /** Removing the listener `x` from the registry `a + [x] + b` leaves
      `a + b` when no later listener has the same identity. */
  lemma {:induction false} RemoveListenerAt(a: seq<Pending>, x: Pending, b: seq<Pending>)
    requires forall q :: q in b ==> q.id != x.id
    ensures RemoveListener(a + [x] + b, x.id) == a + b
    decreases |b|
  {
    var s := a + [x] + b;
    if b == [] {
      assert s[..|s| - 1] == a;
      assert a + b == a;
    } else {
      var b' := b[..|b| - 1];
      assert s[..|s| - 1] == a + [x] + b';
      assert b[|b| - 1] in b;
      forall q | q in b' ensures q.id != x.id {
        var k :| 0 <= k < |b'| && b'[k] == q;
        assert b[k] == q;
      }
      RemoveListenerAt(a, x, b');
      assert a + b' + [b[|b| - 1]] == a + b;
    }
  }

  /** Taking `x` out of `a + [x] + b` keeps the identities of the others
      distinct, and none of them is `x`'s. */
  lemma RemoveKeepsDistinct(a: seq<Pending>, x: Pending, b: seq<Pending>)
    requires DistinctIds(a + [x] + b)
    ensures DistinctIds(a + b)
    ensures forall p :: p in a + b ==> p.id != x.id
  {
    var s := a + [x] + b;
    forall p | p in a + b ensures p.id != x.id {
      var k :| 0 <= k < |a + b| && (a + b)[k] == p;
      if k < |a| {
        assert s[k] == p && s[|a|] == x;
      } else {
        assert s[k + 1] == p && s[|a|] == x;
      }
    }
    forall i, j | 0 <= i < j < |a + b| ensures (a + b)[i].id != (a + b)[j].id {
      var i' := if i < |a| then i else i + 1;
      var j' := if j < |a| then j else j + 1;
      assert s[i'] == (a + b)[i] && s[j'] == (a + b)[j];
    }
  }

  /** The registry invariant: each request identity is below the counter,
      pending at most once, settled at most once, and never both. */
  predicate Consistent(ps: seq<Pending>, log: seq<Settlement>, nextId: nat) {
    DistinctIds(ps)
    && DistinctSettlements(log)
    && (forall p :: p in ps ==> p.id < nextId)
    && (forall s :: s in log ==> s.id < nextId)
    && (forall p, s :: p in ps && s in log ==> p.id != s.id)
  }

  /** A request that has settled is never settled again: a message only
      settles requests that are still pending. */
  lemma SettledNeverSettleAgain(ps: seq<Pending>, log: seq<Settlement>, nextId: nat, msg: Value)
    requires Consistent(ps, log, nextId)
    ensures forall s, t :: s in log && t in SettlementsFor(ps, msg) ==> s.id != t.id
  {
    SettlementMembers(ps, msg);
  }

  /** Settling one pending request keeps the registry consistent. */
  lemma SettleOneKeepsConsistent(a: seq<Pending>, x: Pending, b: seq<Pending>,
                                 log: seq<Settlement>, nextId: nat, o: Outcome)
    requires Consistent(a + [x] + b, log, nextId)
    ensures RemoveListener(a + [x] + b, x.id) == a + b
    ensures Consistent(a + b, log + [Settlement(x.id, o)], nextId)
  {
    RemoveKeepsDistinct(a, x, b);
    RemoveListenerAt(a, x, b);
    var ps := a + [x] + b;
    assert x in ps;
    forall p | p in a + b ensures p in ps && p.id < nextId {
      var k :| 0 <= k < |a + b| && (a + b)[k] == p;
      if k < |a| { assert ps[k] == p; } else { assert ps[k + 1] == p; }
    }
    var log' := log + [Settlement(x.id, o)];
    forall i, j | 0 <= i < j < |log'| ensures log'[i].id != log'[j].id {
      if j == |log| {
        assert log'[i] in log;
      } else {
        assert log'[i] == log[i] && log'[j] == log[j];
      }
    }
  }

  /** Extending the prefix of listeners a message has visited by one. */
  lemma VisitOneMore(ps: seq<Pending>, i: nat, msg: Value)
    requires i < |ps|
    ensures Unmatched(ps[..i + 1], msg) ==
      Unmatched(ps[..i], msg) + (if Matches(ps[i], msg) then [] else [ps[i]])
    ensures SettlementsFor(ps[..i + 1], msg) ==
      SettlementsFor(ps[..i], msg) +
        (if Matches(ps[i], msg) then [Settlement(ps[i].id, ReplyOutcome(msg))] else [])
  {
    assert ps[..i + 1][..i] == ps[..i];
  }

  /** One step of delivering a message to a snapshot of the listeners: the
      listener at position `i` leaves when it matches, and stays otherwise. */
  lemma VisitStepListeners(snapshot: seq<Pending>, i: nat, msg: Value)
    requires DistinctIds(snapshot)
    requires i < |snapshot|
    ensures Matches(snapshot[i], msg) ==>
      RemoveListener(Unmatched(snapshot[..i], msg) + snapshot[i..], snapshot[i].id)
        == Unmatched(snapshot[..i + 1], msg) + snapshot[i + 1..]
    ensures !Matches(snapshot[i], msg) ==>
      Unmatched(snapshot[..i], msg) + snapshot[i..]
        == Unmatched(snapshot[..i + 1], msg) + snapshot[i + 1..]
  {
    var p, rest := snapshot[i], snapshot[i + 1..];
    assert snapshot[i..] == [p] + rest;
    VisitOneMore(snapshot, i, msg);
    LaterIdsDiffer(snapshot, i);
    VisitStep(Unmatched(snapshot[..i], msg), Unmatched(snapshot[..i + 1], msg), p, rest, Matches(p, msg));
  }

  /** The registry `kept + [p] + rest` after the listener `p` has been
      visited: removed when it matched, kept otherwise. */
  lemma VisitStep(kept: seq<Pending>, next: seq<Pending>, p: Pending, rest: seq<Pending>, matched: bool)
    requires next == kept + (if matched then [] else [p])
    requires forall q :: q in rest ==> q.id != p.id
    ensures matched ==> RemoveListener(kept + ([p] + rest), p.id) == next + rest
    ensures !matched ==> kept + ([p] + rest) == next + rest
  {
    assert kept + ([p] + rest) == kept + [p] + rest;
    if matched {
      RemoveListenerAt(kept, p, rest);
    }
  }

  /** In a registry with distinct identities, no listener after position `i`
      shares the identity of the one at `i`. */
  lemma LaterIdsDiffer(ps: seq<Pending>, i: nat)
    requires DistinctIds(ps)
    requires i < |ps|
    ensures forall q :: q in ps[i + 1..] ==> q.id != ps[i].id
  {
    forall q | q in ps[i + 1..] ensures q.id != ps[i].id {
      var k :| 0 <= k < |ps[i + 1..]| && ps[i + 1..][k] == q;
      assert ps[i + 1 + k] == q;
    }
  }

  /** Two registered listeners with the same identity are the same listener. */
  lemma SameIdSameListener(ps: seq<Pending>, p: Pending, q: Pending)
    requires DistinctIds(ps)
    requires p in ps && q in ps && p.id == q.id
    ensures p == q
  {
    var i :| 0 <= i < |ps| && ps[i] == p;
    var j :| 0 <= j < |ps| && ps[j] == q;
    assert i == j;
  }

  /** Dropping the last listener keeps identities distinct. */
  lemma InitDistinct(ps: seq<Pending>)
    requires DistinctIds(ps) && ps != []
    ensures DistinctIds(ps[..|ps| - 1])
    ensures forall p :: p in ps[..|ps| - 1] ==> p.id != ps[|ps| - 1].id
  {
    var init := ps[..|ps| - 1];
    forall i, j | 0 <= i < j < |init| ensures init[i].id != init[j].id {
      assert init[i] == ps[i] && init[j] == ps[j];
    }
    forall p | p in init ensures p.id != ps[|ps| - 1].id {
      var k :| 0 <= k < |init| && init[k] == p;
      assert ps[k] == p;
    }
  }

  /** The listeners a message leaves have distinct identities. */
  lemma {:induction false} UnmatchedDistinct(ps: seq<Pending>, msg: Value)
    requires DistinctIds(ps)
    ensures DistinctIds(Unmatched(ps, msg))
    decreases |ps|
  {
    if ps != [] {
      var init, last := ps[..|ps| - 1], ps[|ps| - 1];
      InitDistinct(ps);
      UnmatchedDistinct(init, msg);
      UnmatchedMembers(init, msg);
      var u := Unmatched(init, msg);
      var v := u + [last];
      forall i, j | 0 <= i < j < |v| ensures v[i].id != v[j].id {
        if j < |u| {
          assert v[i] == u[i] && v[j] == u[j];
        } else {
          assert v[i] == u[i] && u[i] in init;
        }
      }
    }
  }

  /** The settlements a message causes have distinct identities. */
  lemma {:induction false} SettlementsDistinct(ps: seq<Pending>, msg: Value)
    requires DistinctIds(ps)
    ensures DistinctSettlements(SettlementsFor(ps, msg))
    decreases |ps|
  {
    if ps != [] {
      var init, last := ps[..|ps| - 1], ps[|ps| - 1];
      InitDistinct(ps);
      SettlementsDistinct(init, msg);
      SettlementMembers(init, msg);
      var ss := SettlementsFor(init, msg);
      if Matches(last, msg) {
        var v := ss + [Settlement(last.id, ReplyOutcome(msg))];
        forall i, j | 0 <= i < j < |v| ensures v[i].id != v[j].id {
          if j < |ss| {
            assert v[i] == ss[i] && v[j] == ss[j];
          } else {
            assert v[i] == ss[i] && ss[i] in ss;
          }
        }
      }
    }
  }

  /** A settlement caused by a message concerns a pending request, so its
      identity is below the counter, not yet settled, and no longer pending. */
  lemma SettlementsFresh(ps: seq<Pending>, log: seq<Settlement>, nextId: nat, msg: Value)
    requires Consistent(ps, log, nextId)
    ensures forall s :: s in SettlementsFor(ps, msg) ==>
      s.id < nextId
      && (forall t :: t in log ==> t.id != s.id)
      && (forall p :: p in Unmatched(ps, msg) ==> p.id != s.id)
  {
    UnmatchedMembers(ps, msg);
    SettlementMembers(ps, msg);
    forall s, p | s in SettlementsFor(ps, msg) && p in Unmatched(ps, msg)
      ensures p.id != s.id
    {
      var q :| q in ps && Matches(q, msg) && q.id == s.id;
      if p.id == s.id {
        SameIdSameListener(ps, p, q);
      }
    }
  }

  /** Delivering a message to every listener keeps the registry consistent. */
  lemma DeliveryKeepsConsistent(ps: seq<Pending>, log: seq<Settlement>, nextId: nat, msg: Value)
    requires Consistent(ps, log, nextId)
    ensures Consistent(Unmatched(ps, msg), log + SettlementsFor(ps, msg), nextId)
  {
    var ss := SettlementsFor(ps, msg);
    UnmatchedMembers(ps, msg);
    UnmatchedDistinct(ps, msg);
    SettlementsDistinct(ps, msg);
    SettlementsFresh(ps, log, nextId, msg);
    var log' := log + ss;
    forall i, j | 0 <= i < j < |log'| ensures log'[i].id != log'[j].id {
      if j < |log| {
        assert log'[i] == log[i] && log'[j] == log[j];
      } else if i >= |log| {
        assert log'[i] == ss[i - |log|] && log'[j] == ss[j - |log|];
      } else {
        assert log'[i] in log && log'[j] == ss[j - |log|] && ss[j - |log|] in ss;
      }
    }
  }

  /** The stream's emit of one message over a snapshot of the listeners:
      each matching listener removes itself from the live registry and
      settles its request. */
  method Emit(snapshot: seq<Pending>, msg: Value) returns (remaining: seq<Pending>, settlements: seq<Settlement>)
    requires DistinctIds(snapshot)
    ensures remaining == Unmatched(snapshot, msg)
    ensures settlements == SettlementsFor(snapshot, msg)
  {
    remaining, settlements := snapshot, [];
    var i := 0;
    while i < |snapshot|
      invariant 0 <= i <= |snapshot|
      invariant remaining == Unmatched(snapshot[..i], msg) + snapshot[i..]
      invariant settlements == SettlementsFor(snapshot[..i], msg)
    {
      var p := snapshot[i];
      VisitStepListeners(snapshot, i, msg);
      VisitOneMore(snapshot, i, msg);
      if Matches(p, msg) {
        remaining := RemoveListener(remaining, p.id);
        settlements := settlements + [Settlement(p.id, ReplyOutcome(msg))];
      }
      i := i + 1;
    }
    assert snapshot[..i] == snapshot;
  }
}
