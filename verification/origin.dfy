/**
 * The storage front end, seen from the proxy: `requests.get` and
 * `requests.head` against a download URL.
 *
 * The network is modelled as a fixed answer function: the answer to the n-th
 * request may depend on n, so a token can expire between two requests.  Every
 * request is logged, so a request handler can be held to the calls it makes.
 */
module Origin {
  import opened Common

  datatype Verb = Get | Head

  datatype Call = Call(verb: Verb, url: string)

  /** Status code, reason phrase, the `Content-Type` header if sent, and the body. */
  datatype Response = Response(status: int, reason: string, contentType: Option<string>, body: seq<byte>)

  class Remote {
    /** The answer to the n-th request ever sent. */
    const respond: (nat, Call) -> Response

    /** Every request sent so far, oldest first. */
    var calls: seq<Call>

    constructor (respond: (nat, Call) -> Response)
      ensures this.respond == respond && calls == []
    {
      this.respond := respond;
      calls := [];
    }

    /** Sends one request and returns the origin's answer to it. */
    method Send(call: Call) returns (r: Response)
      modifies this
      ensures calls == old(calls) + [call]
      ensures r == respond(|old(calls)|, call)
    {
      r := respond(|calls|, call);
      calls := calls + [call];
    }
  }
}
