/** AsyncPipeline: the ordered chain of nodes ending at the sender, the run
    that pushes one request through it, and the pipeline's context-manager
    entry points.

    The chain is immutable and linked by position: the `next` of node `i` is
    node `i + 1`, and the `next` of the last node is the sender. */
module Pipeline {
  import opened Wrappers
  import opened Http
  import opened Policies
  import opened Sender

  datatype AsyncPipeline = AsyncPipeline(nodes: seq<Node>, sender: AsyncSender)

  /** The list the constructor iterates over: `policies or []`. */
  function Entries(policies: Option<seq<PolicyEntry>>): (ps: seq<PolicyEntry>)
    ensures policies.None? ==> ps == []
    ensures policies.Some? ==> ps == policies.value
  {
    match policies
    case None => []
    case Some(ps) => ps
  }

  /** The constructor's first loop: each SansIO policy is wrapped in a fresh
      runner, every other policy is appended as it is. */
  function WrapAll(ps: seq<PolicyEntry>): (nodes: seq<Node>)
    ensures |nodes| == |ps|
    ensures forall i | 0 <= i < |ps| :: Wraps(ps[i], nodes[i])
  {
    if ps == [] then []
    else
      var last := ps[|ps| - 1];
      var node := match last
        case SansIO(s) => Runner(s)
        case Full(f) => Policy(f);
      WrapAll(ps[..|ps| - 1]) + [node]
  }

  /** `AsyncPipeline(policies, sender)` with a sender supplied. */
  function NewPipeline(policies: Option<seq<PolicyEntry>>, sender: AsyncSender): (p: AsyncPipeline)
    ensures p.sender == sender
    ensures |p.nodes| == |Entries(policies)|
    ensures forall i | 0 <= i < |p.nodes| :: Wraps(Entries(policies)[i], p.nodes[i])
    ensures policies.None? ==> p.nodes == []
  {
    AsyncPipeline(WrapAll(Entries(policies)), sender)
  }

  /** Where a `send` call lands: a node of the chain, or the sender. */
  datatype Target = AtNode(index: nat) | AtSender

  predicate ValidTarget(p: AsyncPipeline, t: Target) {
    t.AtNode? ==> t.index < |p.nodes|
  }

  /** The `next` of node `i`, as the constructor's linking assigns it. */
  function Next(p: AsyncPipeline, i: nat): (t: Target)
    requires i < |p.nodes|
    ensures ValidTarget(p, t)
    ensures t == AtSender <==> i == |p.nodes| - 1
    ensures t.AtNode? ==> t.index == i + 1
  {
    if i + 1 < |p.nodes| then AtNode(i + 1) else AtSender
  }

  /** The stage `run` calls: the first node, or the sender when there is none. */
  function First(p: AsyncPipeline): (t: Target)
    ensures ValidTarget(p, t)
    ensures t == AtSender <==> p.nodes == []
    ensures t.AtNode? ==> t.index == 0
  {
    if |p.nodes| > 0 then AtNode(0) else AtSender
  }

  /** The number of `next` links between `t` and the sender. */
  function Remaining(p: AsyncPipeline, t: Target): nat
    requires ValidTarget(p, t)
  {
    match t
    case AtNode(i) => |p.nodes| - i
    case AtSender => 0
  }

  /** The stage reached from `t` by following `next` `k` times. */
  function Follow(p: AsyncPipeline, t: Target, k: nat): (u: Target)
    requires ValidTarget(p, t) && k <= Remaining(p, t)
    ensures ValidTarget(p, u)
    decreases k
  {
    if k == 0 then t
    else Follow(p, Next(p, t.index), k - 1)
  }

  /** What happens during a run, in order. Each event records the arguments
      of the call it stands for. */
  datatype Event =
    | NodeSend(node: nat, request: Request, kwargs: Kwargs)
    | OnRequest(node: nat, request: Request, kwargs: Kwargs)
    | OnResponse(node: nat, request: Request, response: Response, kwargs: Kwargs)
    | SenderSend(request: Request, kwargs: Kwargs)

  /** The event of calling `send` on `t` with `req` and `kw`. */
  function Invocation(t: Target, req: Request, kw: Kwargs): Event {
    match t
    case AtNode(i) => NodeSend(i, req, kw)
    case AtSender => SenderSend(req, kw)
  }

  /** The result of a `send` call: the final state of the request object the
      caller passed in, the returned response, and the events the call
      caused. */
  datatype Outcome = Outcome(request: Request, response: Response, trace: seq<Event>)

  /** `send(req, **kw)` on target `t`, with the transport's resources in
      state `st`. A runner calls `on_request`, calls `next.send` once with
      its own request object and the same options, calls `on_response` with
      that object and what came back, and returns that response object. A
      full policy forwards or answers on its own, as it decides. The sender
      performs the exchange. */
  function Invoke(p: AsyncPipeline, st: SenderState, t: Target, req: Request, kw: Kwargs): (r: Outcome)
    requires ValidTarget(p, t)
    ensures |r.trace| > 0 && r.trace[0] == Invocation(t, req, kw)
    decreases Remaining(p, t)
  {
    match t
    case AtSender =>
      var ex := p.sender.send(st, req, kw);
      Outcome(ex.request, ex.response, [SenderSend(req, kw)])
    case AtNode(i) =>
      match p.nodes[i]
      case Runner(s) =>
        var down := Invoke(p, st, Next(p, i), s.onRequest(req, kw), kw);
        var ex := s.onResponse(down.request, down.response, kw);
        Outcome(ex.request, ex.response,
                [NodeSend(i, req, kw), OnRequest(i, req, kw)] + down.trace
                + [OnResponse(i, down.request, down.response, kw)])
      case Policy(f) =>
        match f.decide(req, kw)
        case Respond(rq, rs) => Outcome(rq, rs, [NodeSend(i, req, kw)])
        case Forward(sent, k, kept) =>
          var down := Invoke(p, st, Next(p, i), sent, k);
          // The policy's own request object: the one sent, or the one kept.
          var mine := match kept
            case None => down.request
            case Some(own) => own;
          var ex := f.afterward(req, mine, down.response, kw);
          Outcome(ex.request, ex.response, [NodeSend(i, req, kw)] + down.trace)
  }

  /** The request as `run` hands it on: `pipeline_context` set to what the
      sender's `build_context` returns. */
  function Stamp(p: AsyncPipeline, st: SenderState, req: Request): (stamped: Request)
    ensures stamped.pipelineContext == p.sender.buildContext(st)
    ensures stamped.(pipelineContext := req.pipelineContext) == req
  {
    req.(pipelineContext := p.sender.buildContext(st))
  }

  /** `run(request, **kwargs)` with the transport's resources in state `st`:
      stamp the sender's context on the request, replacing any earlier one,
      then call `send` on the first stage only. */
  function Run(p: AsyncPipeline, st: SenderState, req: Request, kw: Kwargs): (r: Outcome)
    ensures |r.trace| > 0
    ensures r.trace[0] == Invocation(First(p), Stamp(p, st, req), kw)
    ensures r.trace[0].request.pipelineContext == p.sender.buildContext(st)
  {
    Invoke(p, st, First(p), Stamp(p, st, req), kw)
  }

  /** `with pipeline:` raises TypeError: only `async with` is supported. */
  function EnterSync(p: AsyncPipeline): (r: Result<AsyncPipeline, UsageError>)
    ensures r.Failure? && r.error == TypeError(AsyncWithOnly)
  {
    Failure(TypeError(AsyncWithOnly))
  }

  /** `__aenter__`: enter the sender, then return the pipeline itself. */
  function AEnter(p: AsyncPipeline, st: SenderState): (r: (AsyncPipeline, SenderState))
    ensures r.0 == p
    ensures r.1 == p.sender.aenter(st)
  {
    (p, p.sender.aenter(st))
  }

  /** `__aexit__`: exit the sender with the same exception details. The
      pipeline's own `__aexit__` returns `None`, so it never suppresses the
      exception, whatever the sender's answer. */
  function AExit(p: AsyncPipeline, st: SenderState, exc: ExcDetails): (r: (SenderState, bool))
    ensures r.0 == p.sender.aexit(st, exc).0
    ensures !r.1
  {
    (p.sender.aexit(st, exc).0, false)
  }

  /** An `async with` block around the pipeline does to the transport's
      resources exactly what one around the sender does: the pipeline holds
      no resources of its own. */
  lemma ScopeIsSenderScope(p: AsyncPipeline, st: SenderState, exc: ExcDetails)
    ensures AEnter(p, st).0 == p
    ensures AExit(p, AEnter(p, st).1, exc).0 == p.sender.aexit(p.sender.aenter(st), exc).0
    ensures !AExit(p, AEnter(p, st).1, exc).1
  {
  }
}
