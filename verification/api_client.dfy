/** What the iOS network client promises its caller; the HTTP requests
    themselves are not modelled. */
module ApiClient {
  import opened Wrappers

  /** `sendSteps`: the upload actually issued, if any. Non-positive counts
      are dropped before any request is built. */
  function SendSteps(steps: int): (r: Option<int>)
    ensures r.Some? <==> steps > 0
    ensures r.Some? ==> r.value == steps
  {
    if steps > 0 then Some(steps) else None
  }

  /** How an alert poll ended. */
  datatype PollResponse =
    | TransportError                 // `error` set by URLSession
    | NoData                         // no body
    | Undecodable                    // the JSON decoder threw
    | Decoded(alert: Option<string>) // `{"alert": ...}`, possibly null

  /** `checkAlert`: the value handed to the completion closure. Every
      failure is reported as nil. */
  function AlertOf(resp: PollResponse): (r: Option<string>)
    ensures r.Some? ==> resp.Decoded? && resp.alert == r
    ensures resp.Decoded? ==> r == resp.alert
  {
    match resp
    case Decoded(a) => a
    case _ => None
  }
}
