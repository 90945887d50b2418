/** The two kinds of policy a pipeline accepts (AsyncHTTPPolicy and
    SansIOHTTPPolicy) and the node a pipeline builds from each. A policy's
    code is a collaborator the pipeline cannot see, so it is carried as
    total functions: whatever a policy does, it does to the states of the
    request and response it is given. */
module Policies {
  import opened Wrappers
  import opened Http

  /** A SansIO policy: two hooks, no view of the rest of the chain.
      `onRequest` gives the state it leaves the request in; `onResponse`
      gives the states it leaves the request and the response in. */
  datatype SansIOPolicy = SansIOPolicy(
    onRequest: (Request, Kwargs) -> Request,
    onResponse: (Request, Response, Kwargs) -> Exchange)

  /** What a full policy's `send` does before it would call `next.send`:
      forward, or answer on its own without forwarding.
      `Forward(sent, kwargs, kept)` calls `next.send` with a request in state
      `sent` and the given options. With `kept == None` the request sent is
      the very object the policy received; with `kept == Some(k)` the policy
      sends a different object (a copy, say), and the object it received is
      left in state `k`.
      `Respond(request, response)` answers with `response`, leaving the
      received request in state `request`. */
  datatype Decision =
    | Forward(sent: Request, kwargs: Kwargs, kept: Option<Request>)
    | Respond(request: Request, response: Response)

  /** A full AsyncHTTPPolicy. `id` is the identity of the Python object;
      `afterward` is what `send` does once `next.send` returns. It is given
      the request as the policy received it (so anything the policy saved
      before forwarding is available), the current state of the policy's own
      request object, the response that came back and the options the policy
      itself received; it gives the final states of that request object and
      of the response it returns. */
  datatype FullPolicy = FullPolicy(
    id: nat,
    decide: (Request, Kwargs) -> Decision,
    afterward: (Request, Request, Response, Kwargs) -> Exchange)

  /** One entry of the list handed to the pipeline's constructor. */
  datatype PolicyEntry = SansIO(hooks: SansIOPolicy) | Full(policy: FullPolicy)

  /** A node of the chain: a runner object wrapping a SansIO policy, or a
      full policy kept as the very object that was supplied. */
  datatype Node = Runner(wrapped: SansIOPolicy) | Policy(full: FullPolicy)

  /** True when `n` is the node the constructor makes of entry `e`. */
  ghost predicate Wraps(e: PolicyEntry, n: Node) {
    match e
    case SansIO(s) => n == Runner(s)
    case Full(f) => n == Policy(f)
  }

  /** The entry a node was made from. */
  function Unwrap(n: Node): (e: PolicyEntry)
    ensures Wraps(e, n)
  {
    match n
    case Runner(s) => SansIO(s)
    case Policy(f) => Full(f)
  }

  /** Whether node `n`, called with `req` and `kw`, calls `next.send`.
      A runner always does; a full policy does when it decides to. */
  predicate ForwardsOn(n: Node, req: Request, kw: Kwargs) {
    match n
    case Runner(_) => true
    case Policy(f) => f.decide(req, kw).Forward?
  }
}
