/**
 * The inbound side: how a message from the parent is classified, how a
 * dotted property path is walked over the application object, and which
 * reply, if any, goes back.
 */
module Dispatcher {
  import opened Wrappers
  import opened Text
  import opened JsValues

  /** The separator of the segments of a property path. */
  const PathSeparator: char := '.'

  /** What an inbound message asks this child to do. */
  datatype Inbound = Ignored | FetchRequest(path: Value) | EvalRequest(code: Value)

  /** The outcome of the application's evaluator on a script. */
  datatype EvalOutcome = Returned(value: Value) | Threw(error: Value)

  /** A reply to send back, with the kind named in a failure report. */
  datatype Reply = Reply(kind: string, message: Value)

  /** A message is a fetch request when `_fetchProp` is truthy, otherwise an
      evaluation request when `_eval` is truthy; anything else is ignored. */
  function Classify(msg: Value): Inbound {
    if !Truthy(msg) then Ignored
    else if Truthy(Get(msg, "_fetchProp")) then FetchRequest(Get(msg, "_fetchProp"))
    else if Truthy(Get(msg, "_eval")) then EvalRequest(Get(msg, "_eval"))
    else Ignored
  }

  /** Sequential property access along `segments`: None when a property of
      undefined or null would be read (a TypeError). */
  function Resolve(v: Value, segments: seq<string>): Option<Value>
    decreases |segments|
  {
    if segments == [] then Some(v)
    else if Nullish(v) then None
    else Resolve(Get(v, segments[0]), segments[1..])
  }

  /** The traversal loop of the fetch handler. */
  method FetchPath(root: Value, segments: seq<string>) returns (r: Option<Value>)
    ensures r == Resolve(root, segments)
  {
    var value := root;
    var i := 0;
    while i < |segments|
      invariant 0 <= i <= |segments|
      invariant Resolve(root, segments) == Resolve(value, segments[i..])
    {
      if Nullish(value) {
        return None;
      }
      assert segments[i..][1..] == segments[i + 1..];
      value := Get(value, segments[i]);
      i := i + 1;
    }
    assert segments[i..] == [];
    r := Some(value);
  }

  /** Walking `a + b` is walking `a`, then `b` from where `a` ended. */
  lemma {:induction false} ResolveAppend(v: Value, a: seq<string>, b: seq<string>)
    ensures Resolve(v, a + b) ==
      (match Resolve(v, a)
       case None => None
       case Some(w) => Resolve(w, b))
    decreases |a|
  {
    if a == [] {
      assert a + b == b;
    } else if !Nullish(v) {
      assert (a + b)[0] == a[0] && (a + b)[1..] == a[1..] + b;
      ResolveAppend(Get(v, a[0]), a[1..], b);
    }
  }

  /** A missing last segment yields undefined, not an error. */
  lemma MissingLastSegment(v: Value, prefix: seq<string>, last: string, fields: map<string, Value>)
    requires Resolve(v, prefix) == Some(Obj(fields))
    requires last !in fields
    ensures Resolve(v, prefix + [last]) == Some(Undefined)
  {
    ResolveAppend(v, prefix, [last]);
  }

  /** An undefined or null value before the end makes the walk fail. */
  lemma NullishIntermediate(v: Value, prefix: seq<string>, rest: seq<string>)
    requires Resolve(v, prefix).Some? && Nullish(Resolve(v, prefix).value)
    requires rest != []
    ensures Resolve(v, prefix + rest) == None
  {
    ResolveAppend(v, prefix, rest);
  }

  /** The reply the dispatcher sends for `msg`, if any, given the application
      object `root` and what evaluating the script would give. A falsy
      message, or one that asks for neither operation, gets nothing. A fetch
      request is answered with the value the walk reaches, echoing the path,
      and not at all when the walk fails or the path is not a string. An
      evaluation request gets exactly one reply, echoing the script, with
      either `_result` or `_error`. */
  function DispatchReply(msg: Value, root: Value, evaluated: EvalOutcome): (r: Option<Reply>)
    ensures !Truthy(msg) ==> r == None
    ensures Truthy(msg) && !Truthy(Get(msg, "_fetchProp")) && !Truthy(Get(msg, "_eval")) ==> r == None
    ensures Truthy(msg) && Truthy(Get(msg, "_fetchProp")) && !Get(msg, "_fetchProp").Str? ==> r == None
    ensures Truthy(msg) && Truthy(Get(msg, "_fetchProp")) && Get(msg, "_fetchProp").Str? ==>
      (r.Some? <==> Resolve(root, Split(Get(msg, "_fetchProp").s, PathSeparator)).Some?)
      && (r.Some? ==> r.value == Reply("fetchProp", Obj(map[
            "_fetchProp" := Get(msg, "_fetchProp"),
            "_result" := Resolve(root, Split(Get(msg, "_fetchProp").s, PathSeparator)).value])))
    ensures Truthy(msg) && !Truthy(Get(msg, "_fetchProp")) && Truthy(Get(msg, "_eval")) ==>
      r.Some? && r.value.kind == "eval" && r.value.message.Obj?
      && Get(r.value.message, "_eval") == Get(msg, "_eval")
      && ("_result" in r.value.message.fields <==> "_error" !in r.value.message.fields)
      && ("_error" in r.value.message.fields <==> evaluated.Threw?)
      && (evaluated.Returned? ==> Get(r.value.message, "_result") == evaluated.value)
      && (evaluated.Threw? ==> Get(r.value.message, "_error") == evaluated.error)
  {
    match Classify(msg)
    case Ignored => None
    case FetchRequest(path) =>
      if !path.Str? then None
      else (match Resolve(root, Split(path.s, PathSeparator))
            case None => None
            case Some(v) => Some(Reply("fetchProp", Obj(map["_fetchProp" := path, "_result" := v]))))
    case EvalRequest(code) =>
      match evaluated
      case Returned(v) => Some(Reply("eval", Obj(map["_eval" := code, "_result" := v])))
      case Threw(e) => Some(Reply("eval", Obj(map["_eval" := code, "_error" := e])))
  }

  /** Fetching `a.b.c` when `a.b` is an object without `c` replies with an
      undefined result rather than an error. */
  lemma MissingLastSegmentRepliesUndefined(msg: Value, root: Value, evaluated: EvalOutcome,
                                           prefix: seq<string>, last: string, fields: map<string, Value>)
    requires forall i :: 0 <= i < |prefix| ==> PathSeparator !in prefix[i]
    requires PathSeparator !in last
    requires Truthy(msg) && Get(msg, "_fetchProp") == Str(Join(prefix + [last], PathSeparator))
    requires Join(prefix + [last], PathSeparator) != ""
    requires Resolve(root, prefix) == Some(Obj(fields)) && last !in fields
    ensures DispatchReply(msg, root, evaluated) ==
      Some(Reply("fetchProp", Obj(map["_fetchProp" := Get(msg, "_fetchProp"), "_result" := Undefined])))
  {
    SplitJoin(prefix + [last], PathSeparator);
    MissingLastSegment(root, prefix, last, fields);
  }

  /** Fetching through an undefined or null intermediate value sends no reply. */
  lemma NullishIntermediateSendsNothing(msg: Value, root: Value, evaluated: EvalOutcome,
                                        prefix: seq<string>, rest: seq<string>)
    requires rest != []
    requires forall i :: 0 <= i < |prefix + rest| ==> PathSeparator !in (prefix + rest)[i]
    requires Truthy(msg) && Get(msg, "_fetchProp") == Str(Join(prefix + rest, PathSeparator))
    requires Join(prefix + rest, PathSeparator) != ""
    requires Resolve(root, prefix).Some? && Nullish(Resolve(root, prefix).value)
    ensures DispatchReply(msg, root, evaluated) == None
  {
    SplitJoin(prefix + rest, PathSeparator);
    NullishIntermediate(root, prefix, rest);
  }
}
