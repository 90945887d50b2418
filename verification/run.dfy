/** What one run does: which stages it calls and in what order, when the
    sender is reached, what the SansIO runner does around its single
    forward, and how the context is stamped. */
module RunProperties {
  import opened Wrappers
  import opened Http
  import opened Policies
  import opened Sender
  import opened Pipeline
  import opened Chain
  import opened Traces

  /** A `send` on `t` calls stages along the chain from `t`, in chain order:
      the `j`-th stage called is the one `j` hops after `t`. So no stage is
      called twice and nothing off the chain is called. */
  lemma {:induction false} InvokeWalksChain(p: AsyncPipeline, st: SenderState, t: Target, req: Request, kw: Kwargs)
    requires ValidTarget(p, t)
    ensures var ts := Invoked(Invoke(p, st, t, req, kw).trace);
      && 1 <= |ts| <= Remaining(p, t) + 1
      && forall j | 0 <= j < |ts| :: j <= Remaining(p, t) && ts[j] == Follow(p, t, j)
    decreases Remaining(p, t)
  {
    var r := Invoke(p, st, t, req, kw);
    match t
    case AtSender =>
      assert Invoked(r.trace) == [AtSender];
    case AtNode(i) =>
      var nx := Next(p, i);
      var down: Outcome;
      var head: seq<Event>;
      var tail: seq<Event>;
      match p.nodes[i]
      case Runner(s) =>
        down := Invoke(p, st, nx, s.onRequest(req, kw), kw);
        head := [NodeSend(i, req, kw), OnRequest(i, req, kw)];
        tail := [OnResponse(i, down.request, down.response, kw)];
        assert r.trace == head + down.trace + tail;
        InvokedConcat(head + down.trace, tail);
        InvokedConcat(head, down.trace);
        assert Invoked(tail) == [];
        assert Invoked(head) == [AtNode(i)];
        WalkFrom(p, st, i, s.onRequest(req, kw), kw, head, tail, r.trace);
      case Policy(f) =>
        match f.decide(req, kw)
        case Respond(_, _) =>
          assert Invoked(r.trace) == [AtNode(i)];
        case Forward(rq, k, _) =>
          down := Invoke(p, st, nx, rq, k);
          head := [NodeSend(i, req, kw)];
          assert r.trace == head + down.trace + [];
          InvokedConcat(head, down.trace);
          assert Invoked(head) == [AtNode(i)];
          WalkFrom(p, st, i, rq, k, head, [], r.trace);
  }

  /** The step of InvokeWalksChain for a node that forwards: its own call,
      then the downstream walk from its `next`. */
  lemma WalkFrom(p: AsyncPipeline, st: SenderState, i: nat, dreq: Request, dkw: Kwargs,
                 head: seq<Event>, tail: seq<Event>, trace: seq<Event>)
    requires i < |p.nodes|
    requires var down := Invoke(p, st, Next(p, i), dreq, dkw); trace == head + down.trace + tail
    requires Invoked(head) == [AtNode(i)] && Invoked(tail) == []
    requires var down := Invoke(p, st, Next(p, i), dreq, dkw);
      Invoked(trace) == Invoked(head) + Invoked(down.trace) + Invoked(tail)
    ensures var ts := Invoked(trace);
      && 1 <= |ts| <= Remaining(p, AtNode(i)) + 1
      && forall j | 0 <= j < |ts| :: j <= Remaining(p, AtNode(i)) && ts[j] == Follow(p, AtNode(i), j)
    decreases |p.nodes| - i, 0
  {
    var nx := Next(p, i);
    var down := Invoke(p, st, nx, dreq, dkw);
    InvokeWalksChain(p, st, nx, dreq, dkw);
    var ts := Invoked(trace);
    var ds := Invoked(down.trace);
    assert ts == [AtNode(i)] + ds;
    forall j | 0 <= j < |ts|
      ensures j <= Remaining(p, AtNode(i)) && ts[j] == Follow(p, AtNode(i), j)
    {
      if j > 0 {
        assert ts[j] == ds[j - 1];
      }
    }
  }

  /** The lowest node index a call on `t` can reach. */
  function Lowest(p: AsyncPipeline, t: Target): nat {
    match t
    case AtNode(i) => i
    case AtSender => |p.nodes|
  }

  /** A `send` on `t` never causes an event of a node before `t`: a node
      only ever reaches stages downstream of it. */
  lemma {:induction false} EventsStayDownstream(p: AsyncPipeline, st: SenderState, t: Target, req: Request, kw: Kwargs)
    requires ValidTarget(p, t)
    ensures EventsFrom(p, Invoke(p, st, t, req, kw).trace, Lowest(p, t))
    decreases Remaining(p, t)
  {
    var r := Invoke(p, st, t, req, kw);
    match t
    case AtSender =>
    case AtNode(i) =>
      var nx := Next(p, i);
      match p.nodes[i]
      case Runner(s) =>
        var down := Invoke(p, st, nx, s.onRequest(req, kw), kw);
        var head := [NodeSend(i, req, kw), OnRequest(i, req, kw)];
        var tail := [OnResponse(i, down.request, down.response, kw)];
        EventsStayDownstream(p, st, nx, s.onRequest(req, kw), kw);
        Glue(p, head, down.trace, tail, i);
      case Policy(f) =>
        match f.decide(req, kw)
        case Respond(_, _) =>
        case Forward(rq, k, _) =>
          var down := Invoke(p, st, nx, rq, k);
          EventsStayDownstream(p, st, nx, rq, k);
          Glue(p, [NodeSend(i, req, kw)], down.trace, [], i);
          assert r.trace == [NodeSend(i, req, kw)] + down.trace + [];
  }

  /** A `send` on `t` reaches the sender exactly when no node it calls
      answers on its own: one short-circuit leaves the sender uncalled, and
      without one the sender is called. */
  lemma {:induction false} SenderCalledIffNoShortCircuit(p: AsyncPipeline, st: SenderState, t: Target, req: Request, kw: Kwargs)
    requires ValidTarget(p, t)
    ensures var tr := Invoke(p, st, t, req, kw).trace;
      SenderCalled(tr) <==> NoShortCircuit(p, tr)
    decreases Remaining(p, t)
  {
    var r := Invoke(p, st, t, req, kw);
    match t
    case AtSender =>
      assert r.trace[0].SenderSend?;
    case AtNode(i) =>
      var nx := Next(p, i);
      match p.nodes[i]
      case Runner(s) =>
        var down := Invoke(p, st, nx, s.onRequest(req, kw), kw);
        var head := [NodeSend(i, req, kw), OnRequest(i, req, kw)];
        var tail := [OnResponse(i, down.request, down.response, kw)];
        SenderCalledIffNoShortCircuit(p, st, nx, s.onRequest(req, kw), kw);
        Glue(p, head, down.trace, tail, i);
      case Policy(f) =>
        match f.decide(req, kw)
        case Respond(_, _) =>
          assert !ForwardsOn(p.nodes[i], r.trace[0].request, r.trace[0].kwargs);
        case Forward(rq, k, _) =>
          var down := Invoke(p, st, nx, rq, k);
          SenderCalledIffNoShortCircuit(p, st, nx, rq, k);
          Glue(p, [NodeSend(i, req, kw)], down.trace, [], i);
          assert r.trace == [NodeSend(i, req, kw)] + down.trace + [];
  }

  /** The stages of the chain in walking order: the nodes, then the sender. */
  function ChainTargets(p: AsyncPipeline): (ts: seq<Target>)
    ensures |ts| == |p.nodes| + 1
  {
    seq(|p.nodes| + 1, j requires 0 <= j <= |p.nodes| => if j < |p.nodes| then AtNode(j) else AtSender)
  }

  /** `run` calls a non-empty prefix of the chain, in chain order: the first
      stage, then each next one; the sender at most once, and last. */
  lemma RunCallsChainPrefix(p: AsyncPipeline, st: SenderState, req: Request, kw: Kwargs)
    ensures var ts := Invoked(Run(p, st, req, kw).trace);
      && 1 <= |ts| <= |p.nodes| + 1
      && ts == ChainTargets(p)[..|ts|]
      && (AtSender in ts <==> |ts| == |p.nodes| + 1)
  {
    var stamped := Stamp(p, st, req);
    InvokeWalksChain(p, st, First(p), stamped, kw);
    var ts := Invoked(Run(p, st, req, kw).trace);
    forall j | 0 <= j < |ts|
      ensures ts[j] == ChainTargets(p)[j]
    {
      FollowFromFirst(p, j);
    }
    if AtSender in ts {
      var j :| 0 <= j < |ts| && ts[j] == AtSender;
      assert ChainTargets(p)[j] == AtSender;
    }
  }

  /** `run` reaches the sender exactly when no node it calls answers on its
      own. */
  lemma RunReachesSenderIffNoShortCircuit(p: AsyncPipeline, st: SenderState, req: Request, kw: Kwargs)
    ensures var tr := Run(p, st, req, kw).trace;
      SenderCalled(tr) <==> NoShortCircuit(p, tr)
  {
    SenderCalledIffNoShortCircuit(p, st, First(p), Stamp(p, st, req), kw);
  }

  /** With only SansIO policies nothing can short-circuit: `run` calls every
      node once in list order and then the sender once. */
  lemma AllSansIOCallsWholeChain(p: AsyncPipeline, st: SenderState, req: Request, kw: Kwargs)
    requires forall i | 0 <= i < |p.nodes| :: p.nodes[i].Runner?
    ensures SenderCalled(Run(p, st, req, kw).trace)
    ensures Invoked(Run(p, st, req, kw).trace) == ChainTargets(p)
  {
    var tr := Run(p, st, req, kw).trace;
    RunReachesSenderIffNoShortCircuit(p, st, req, kw);
    EventsStayDownstream(p, st, First(p), Stamp(p, st, req), kw);
    assert NoShortCircuit(p, tr);
    SenderCalledInvoked(tr);
    RunCallsChainPrefix(p, st, req, kw);
  }

  /** With no policies, `run` is the sender's `send` on the stamped request
      with the same options, and nothing else. */
  lemma EmptyPipelineCallsSender(p: AsyncPipeline, st: SenderState, req: Request, kw: Kwargs)
    requires p.nodes == []
    ensures var stamped := Stamp(p, st, req);
      var ex := p.sender.send(st, stamped, kw);
      Run(p, st, req, kw) == Outcome(ex.request, ex.response, [SenderSend(stamped, kw)])
  {
  }

  /** Whatever context the request carried before is overwritten: the run
      does not depend on it. */
  lemma RunOverwritesContext(p: AsyncPipeline, st: SenderState, req: Request, earlier: Option<Context>, kw: Kwargs)
    ensures Run(p, st, req.(pipelineContext := earlier), kw) == Run(p, st, req, kw)
  {
    assert Stamp(p, st, req.(pipelineContext := earlier)) == Stamp(p, st, req);
  }

  /** A sender that does not override `build_context` makes the first stage
      see `pipeline_context` set to `None`. */
  lemma RunWithDefaultContext(
    nodes: seq<Node>,
    send: (SenderState, Request, Kwargs) -> Exchange,
    aenter: SenderState -> SenderState,
    aexit: (SenderState, ExcDetails) -> (SenderState, bool),
    st: SenderState, req: Request, kw: Kwargs)
    ensures var p := AsyncPipeline(nodes, WithDefaultContext(send, aenter, aexit));
      Run(p, st, req, kw).trace[0].request.pipelineContext == None
  {
  }

  /** A first node that is a full policy and answers on its own ends the run:
      `run` returns its answer, and no other stage, the sender included, is
      called. */
  lemma FirstNodeShortCircuit(p: AsyncPipeline, st: SenderState, req: Request, kw: Kwargs)
    requires |p.nodes| > 0 && p.nodes[0].Policy?
    requires p.nodes[0].full.decide(Stamp(p, st, req), kw).Respond?
    ensures var d := p.nodes[0].full.decide(Stamp(p, st, req), kw);
      var r := Run(p, st, req, kw);
      && r.request == d.request && r.response == d.response
      && Invoked(r.trace) == [AtNode(0)]
      && !SenderCalled(r.trace)
  {
    var r := Run(p, st, req, kw);
    assert Invoked(r.trace) == [AtNode(0)];
    SenderCalledInvoked(r.trace);
  }

  /** The SansIO runner at node `i`: first `on_request`, then exactly one
      call of `next.send` with the request `on_request` left and the same
      options, then only events of later stages, and last `on_response` on
      the request and response that came back. It returns that response
      object, in the state `on_response` leaves it. */
  lemma RunnerForwardsOnce(p: AsyncPipeline, st: SenderState, i: nat, req: Request, kw: Kwargs)
    requires i < |p.nodes| && p.nodes[i].Runner?
    ensures var s := p.nodes[i].wrapped;
      var r := Invoke(p, st, AtNode(i), req, kw);
      var down := Invoke(p, st, Next(p, i), s.onRequest(req, kw), kw);
      var ts := Invoked(r.trace);
      && |r.trace| >= 4
      && r.trace[0] == NodeSend(i, req, kw)
      && r.trace[1] == OnRequest(i, req, kw)
      && r.trace[2] == Invocation(Next(p, i), s.onRequest(req, kw), kw)
      && (forall j | 2 <= j < |r.trace| - 1 :: !r.trace[j].SenderSend? ==> r.trace[j].node > i)
      && r.trace[|r.trace| - 1] == OnResponse(i, down.request, down.response, kw)
      && |ts| >= 2 && ts[1] == Next(p, i)
      && (forall j | 0 <= j < |ts| && j != 1 :: ts[j] != Next(p, i))
      && r.response == s.onResponse(down.request, down.response, kw).response
  {
    var s := p.nodes[i].wrapped;
    var r := Invoke(p, st, AtNode(i), req, kw);
    var down := Invoke(p, st, Next(p, i), s.onRequest(req, kw), kw);
    var head := [NodeSend(i, req, kw), OnRequest(i, req, kw)];
    var tail := [OnResponse(i, down.request, down.response, kw)];
    assert r.trace == head + down.trace + tail;
    EventsStayDownstream(p, st, Next(p, i), s.onRequest(req, kw), kw);
    forall j | 2 <= j < |r.trace| - 1
      ensures !r.trace[j].SenderSend? ==> r.trace[j].node > i
    {
      assert r.trace[j] == down.trace[j - 2];
    }
    InvokeWalksChain(p, st, AtNode(i), req, kw);
    var ts := Invoked(r.trace);
    InvokedConcat(head + down.trace, tail);
    InvokedConcat(head, down.trace);
    assert Invoked(head) == [AtNode(i)];
    assert |ts| >= 2;
    forall j | 0 <= j < |ts|
      ensures ts[j] == Next(p, i) <==> j == 1
    {
      FollowFromNode(p, i, j);
      FollowFromNode(p, i, 1);
    }
  }

  /** A full policy at node `i` that sends a different request object (a
      copy) keeps its own: if its code after `next.send` leaves its request
      alone, the request it received ends in the state it kept, whatever the
      later stages do to the copy they were sent. */
  lemma ForwardedCopyLeavesOwnRequest(p: AsyncPipeline, st: SenderState, i: nat, req: Request, kw: Kwargs)
    requires i < |p.nodes| && p.nodes[i].Policy?
    requires p.nodes[i].full.decide(req, kw).Forward?
    requires p.nodes[i].full.decide(req, kw).kept.Some?
    requires forall r0, rq, rs, k :: p.nodes[i].full.afterward(r0, rq, rs, k).request == rq
    ensures Invoke(p, st, AtNode(i), req, kw).request == p.nodes[i].full.decide(req, kw).kept.value
  {
  }

  /** A node that answers on its own is the last stage called: once node `m`
      short-circuits, no later node and not the sender is reached. */
  lemma {:induction false} ShortCircuitIsLast(p: AsyncPipeline, st: SenderState, t: Target,
                                               req: Request, kw: Kwargs, m: nat, rq: Request, k: Kwargs)
    requires ValidTarget(p, t)
    requires NodeSend(m, rq, k) in Invoke(p, st, t, req, kw).trace
    requires m < |p.nodes| && !ForwardsOn(p.nodes[m], rq, k)
    ensures var ts := Invoked(Invoke(p, st, t, req, kw).trace);
      |ts| > 0 && ts[|ts| - 1] == AtNode(m)
    decreases Remaining(p, t), 1
  {
    var r := Invoke(p, st, t, req, kw);
    match t
    case AtSender =>
      assert false;
    case AtNode(i) =>
      match p.nodes[i]
      case Runner(s) =>
        var down := Invoke(p, st, Next(p, i), s.onRequest(req, kw), kw);
        var head := [NodeSend(i, req, kw), OnRequest(i, req, kw)];
        var tail := [OnResponse(i, down.request, down.response, kw)];
        assert r.trace == head + down.trace + tail;
        RunnerFrameInvokesOnce(i, req, kw, down.request, down.response);
        assert NodeSend(m, rq, k) !in head && NodeSend(m, rq, k) !in tail;
        ShortCircuitDownstream(p, st, i, s.onRequest(req, kw), kw, head, tail, m, rq, k);
      case Policy(f) =>
        match f.decide(req, kw)
        case Respond(_, _) =>
          assert Invoked(r.trace) == [AtNode(i)];
          assert m == i;
        case Forward(sent, fk, _) =>
          var down := Invoke(p, st, Next(p, i), sent, fk);
          var head := [NodeSend(i, req, kw)];
          assert r.trace == head + down.trace + [];
          assert Invoked(head) == [AtNode(i)] && Invoked([]) == [];
          assert NodeSend(m, rq, k) !in head;
          ShortCircuitDownstream(p, st, i, sent, fk, head, [], m, rq, k);
  }

  /** The step of ShortCircuitIsLast for a node `i` that forwards: the short
      circuit lies in the downstream call, and the node's own events around
      it call nothing after node `i` itself. */
  lemma ShortCircuitDownstream(p: AsyncPipeline, st: SenderState, i: nat, dreq: Request, dkw: Kwargs,
                               head: seq<Event>, tail: seq<Event>, m: nat, rq: Request, k: Kwargs)
    requires i < |p.nodes|
    requires Invoked(head) == [AtNode(i)] && Invoked(tail) == []
    requires NodeSend(m, rq, k) in head + Invoke(p, st, Next(p, i), dreq, dkw).trace + tail
    requires NodeSend(m, rq, k) !in head && NodeSend(m, rq, k) !in tail
    requires m < |p.nodes| && !ForwardsOn(p.nodes[m], rq, k)
    ensures var ts := Invoked(head + Invoke(p, st, Next(p, i), dreq, dkw).trace + tail);
      |ts| > 0 && ts[|ts| - 1] == AtNode(m)
    decreases |p.nodes| - i, 0
  {
    var down := Invoke(p, st, Next(p, i), dreq, dkw).trace;
    assert NodeSend(m, rq, k) in down;
    ShortCircuitIsLast(p, st, Next(p, i), dreq, dkw, m, rq, k);
    LastCalledAfterHead(head, down, tail, i, m);
  }

  /** A runner's own events call exactly one stage: itself. */
  lemma RunnerFrameInvokesOnce(i: nat, req: Request, kw: Kwargs, mine: Request, resp: Response)
    ensures Invoked([NodeSend(i, req, kw), OnRequest(i, req, kw)]) == [AtNode(i)]
    ensures Invoked([OnResponse(i, mine, resp, kw)]) == []
  {
  }

  /** Gluing a node's own events around its downstream trace keeps the last
      stage called. */
  lemma LastCalledAfterHead(head: seq<Event>, down: seq<Event>, tail: seq<Event>, i: nat, m: nat)
    requires Invoked(head) == [AtNode(i)] && Invoked(tail) == []
    requires var ds := Invoked(down); |ds| > 0 && ds[|ds| - 1] == AtNode(m)
    ensures var ts := Invoked(head + down + tail); |ts| > 0 && ts[|ts| - 1] == AtNode(m)
  {
    InvokedConcat(head + down, tail);
    InvokedConcat(head, down);
  }

  /** A run in which node `m` answers on its own calls exactly nodes `0..m`:
      every later node and the sender stay uncalled. */
  lemma RunStopsAtShortCircuit(p: AsyncPipeline, st: SenderState, req: Request, kw: Kwargs,
                               m: nat, rq: Request, k: Kwargs)
    requires NodeSend(m, rq, k) in Run(p, st, req, kw).trace
    requires m < |p.nodes| && !ForwardsOn(p.nodes[m], rq, k)
    ensures Invoked(Run(p, st, req, kw).trace) == ChainTargets(p)[..m + 1]
    ensures forall j | m < j < |p.nodes| :: AtNode(j) !in Invoked(Run(p, st, req, kw).trace)
    ensures !SenderCalled(Run(p, st, req, kw).trace)
  {
    var tr := Run(p, st, req, kw).trace;
    ShortCircuitIsLast(p, st, First(p), Stamp(p, st, req), kw, m, rq, k);
    RunCallsChainPrefix(p, st, req, kw);
    var ts := Invoked(tr);
    assert ChainTargets(p)[|ts| - 1] == AtNode(m);
    assert |ts| == m + 1;
    SenderCalledInvoked(tr);
  }
}
