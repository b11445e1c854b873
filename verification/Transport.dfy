/**
 * The transport beneath every outbound message: which way `send` settles
 * for each spawn mode, given what the underlying channel reports.
 */
module Transport {
  import opened JsValues

  /** How the child was spawned: an OS subprocess linked to the parent, a
      worker thread with a message port, or a mode string that is neither. */
  datatype Mode = Process | Worker | Unrecognised

  /** The three ways the promise returned by `send` can end up. */
  datatype SendOutcome =
    | Sent                  // resolved: the envelope reached the channel
    | Failed(error: Value)  // rejected with the channel's write error
    | Unsettled             // never resolves nor rejects

  /** The outcome of `send` in `mode`, where `callbackError` is what the
      subprocess channel passes to its write callback (ignored by a worker's
      message port, which has no callback). */
  function SendOutcomeOf(mode: Mode, callbackError: Value): (r: SendOutcome)
    ensures mode == Worker ==> r == Sent
    ensures mode == Process ==> (r == Sent <==> !Truthy(callbackError))
    ensures r.Failed? ==> mode == Process && r.error == callbackError && Truthy(r.error)
    ensures r == Unsettled <==> mode == Unrecognised
  {
    match mode
    case Process => if Truthy(callbackError) then Failed(callbackError) else Sent
    case Worker => Sent
    case Unrecognised => Unsettled
  }
}
