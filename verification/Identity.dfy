/**
 * The identity resolver: the `info` record derived from the process
 * environment (subprocess mode) or from the worker's initialisation data
 * (worker mode), and the transport mode the client reads from it.
 */
module Identity {
  import opened Wrappers
  import opened Text
  import opened JsValues
  import opened Transport

  /** The identity record. In subprocess mode it is assembled from the
      environment; in worker mode it is whatever the parent injected. */
  datatype Info =
    | ProcessInfo(shardList: seq<Value>, totalShards: Value, clusterCount: Value, cluster: Value)
    | WorkerInfo(data: Value)

  datatype InfoError = ConfigurationError(message: string) | TypeError(message: string)

  /** Reading `info`: undefined outside a cluster, an exception, or a record. */
  datatype InfoOutcome = NoCluster | Raised(error: InfoError) | Defined(info: Info)

  const ModeErrorMessage := "NO CHILD/MASTER EXISTS OR SUPPLIED CLUSTER_MANAGER_MODE IS INCORRECT"

  /** `process.env[name]`: a string, or undefined when the variable is unset. */
  function EnvValue(env: map<string, string>, name: string): Value {
    if name in env then Str(env[name]) else Undefined
  }

  function ModeVariable(env: map<string, string>): Value {
    EnvValue(env, "CLUSTER_MANAGER_MODE")
  }

  /** The forEach that converts every comma-separated piece, in order. */
  method ParseShardList(raw: string, toNumber: Value -> Value) returns (shards: seq<Value>)
    ensures |shards| == |Split(raw, ',')| == Count(raw, ',') + 1
    ensures forall i :: 0 <= i < |shards| ==> shards[i] == toNumber(Str(Split(raw, ',')[i]))
  {
    var pieces := Split(raw, ',');
    SplitLength(raw, ',');
    shards := [];
    for i := 0 to |pieces|
      invariant |shards| == i
      invariant forall k :: 0 <= k < i ==> shards[k] == toNumber(Str(pieces[k]))
    {
      shards := shards + [toNumber(Str(pieces[i]))];
    }
  }

  /** The `info` getter. `toNumber` stands for JavaScript's Number(). */
  method ResolveInfo(env: map<string, string>, workerData: Value, toNumber: Value -> Value)
    returns (r: InfoOutcome)
    ensures r == NoCluster <==> !Truthy(ModeVariable(env))
    ensures r == Raised(ConfigurationError(ModeErrorMessage)) <==>
      Truthy(ModeVariable(env)) && ModeVariable(env) != Str("worker") && ModeVariable(env) != Str("process")
    ensures ModeVariable(env) == Str("worker") ==> r == Defined(WorkerInfo(workerData))
    ensures ModeVariable(env) == Str("process") && "SHARD_LIST" !in env ==>
      r.Raised? && r.error.TypeError?
    ensures ModeVariable(env) == Str("process") && "SHARD_LIST" in env ==>
      r.Defined? && r.info.ProcessInfo?
      && |r.info.shardList| == |Split(env["SHARD_LIST"], ',')| == Count(env["SHARD_LIST"], ',') + 1
      && (forall i :: 0 <= i < |r.info.shardList| ==>
            r.info.shardList[i] == toNumber(Str(Split(env["SHARD_LIST"], ',')[i])))
      && r.info.totalShards == toNumber(EnvValue(env, "TOTAL_SHARDS"))
      && r.info.clusterCount == toNumber(EnvValue(env, "CLUSTER_COUNT"))
      && r.info.cluster == toNumber(EnvValue(env, "CLUSTER"))
  {
    var mode := ModeVariable(env);
    if !Truthy(mode) {
      return NoCluster;
    }
    if mode != Str("worker") && mode != Str("process") {
      return Raised(ConfigurationError(ModeErrorMessage));
    }
    if mode == Str("process") {
      if "SHARD_LIST" !in env {
        return Raised(TypeError("Cannot read properties of undefined (reading 'split')"));
      }
      var shards := ParseShardList(env["SHARD_LIST"], toNumber);
      r := Defined(ProcessInfo(shards,
                                toNumber(EnvValue(env, "TOTAL_SHARDS")),
                                toNumber(EnvValue(env, "CLUSTER_COUNT")),
                                toNumber(EnvValue(env, "CLUSTER"))));
    } else {
      r := Defined(WorkerInfo(workerData));
    }
  }

  /** The transport a mode value selects, by strict equality. */
  function ModeOf(v: Value): (m: Mode)
    ensures m == Process <==> v == Str("process")
    ensures m == Worker <==> v == Str("worker")
  {
    if v == Str("process") then Process
    else if v == Str("worker") then Worker
    else Unrecognised
  }

  /** `info.CLUSTER_MANAGER_MODE` as read by the constructor: None when that
      read throws, so that no client can be constructed. */
  function ClientMode(o: InfoOutcome): (m: Option<Mode>)
    ensures m.None? <==>
      o.NoCluster? || o.Raised? || (o.Defined? && o.info.WorkerInfo? && Nullish(o.info.data))
    ensures o.Defined? && o.info.ProcessInfo? ==> m == Some(Process)
    ensures o.Defined? && o.info.WorkerInfo? && !Nullish(o.info.data) ==>
      m == Some(ModeOf(Get(o.info.data, "CLUSTER_MANAGER_MODE")))
  {
    match o
    case NoCluster => None
    case Raised(_) => None
    case Defined(ProcessInfo(_, _, _, _)) => Some(Process)
    case Defined(WorkerInfo(data)) =>
      if Nullish(data) then None else Some(ModeOf(Get(data, "CLUSTER_MANAGER_MODE")))
  }
}
