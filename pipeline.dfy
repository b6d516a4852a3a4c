/** Express middleware chains: the handlers of a route run in order, and the
    first one that answers instead of calling `next()` decides the response. */
module Pipeline {
  import opened Wrappers

  /** What one middleware does with a request: pass it on, or answer it. */
  datatype Step = Next | Respond(status: int)

  /** The status of the first middleware that answers, or None when every
      middleware of the chain called `next()`. */
  function Run(steps: seq<Step>): (r: Option<int>)
    ensures r.None? <==> forall i :: 0 <= i < |steps| ==> steps[i].Next?
  {
    if steps == [] then None
    else if steps[0].Respond? then Some(steps[0].status)
    else Run(steps[1..])
  }

  /** A middleware that answers decides the response when every middleware
      before it passed the request on, whatever the later ones would do. */
  lemma {:induction false} FirstAnswerWins(steps: seq<Step>, k: nat)
    requires k < |steps| && steps[k].Respond?
    requires forall i :: 0 <= i < k ==> steps[i].Next?
    ensures Run(steps) == Some(steps[k].status)
  {
    if k > 0 {
      FirstAnswerWins(steps[1..], k - 1);
    }
  }
}
