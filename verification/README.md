# msrest async pipeline: a Dafny model

This project models the asynchronous HTTP pipeline substrate of msrest
(`msrest/pipeline/async_abc.py`). A pipeline is built from an ordered list of
policies and one sender:

- every SansIO policy (two hooks, `on_request` and `on_response`) is wrapped in
  a runner node;
- every full policy (`send`, with explicit forwarding to `next`) is kept as the
  very object supplied;
- the nodes are linked into one linear chain whose last `next` is the sender.

`run` stamps the sender's `build_context()` on the request and calls `send` on
the first stage only. Every later stage is reached only through a `next.send`
call. The pipeline's `async with` delegates to the sender's, and a plain `with`
raises `TypeError`.

The model is functional:

- The chain is an immutable `AsyncPipeline(nodes, sender)` linked by position
  (`Pipeline.Next`).
- A `send` call is the recursive function `Pipeline.Invoke`. It returns the
  final states of the request and the response, together with a trace of
  events: `NodeSend`, `OnRequest`, `OnResponse` and `SenderSend`. Each event
  records the arguments of its call.
- Python mutates the request and response objects in place. The model
  threads their states instead. A SansIO hook or a full policy returns the
  states it leaves them in.
- Collaborators the pipeline cannot see are total functions carried in their
  datatypes: the policies' code, and the sender's `send`, `build_context`,
  `__aenter__` and `__aexit__`. The sender's `send` and `build_context` take
  the state of the transport's resources, so a context can come from
  whatever `__aenter__` set up. `Pipeline.Run` takes that state as a
  parameter and calls `build_context` on it for every run.
- A full policy decides to `Forward` or to `Respond` on its own.
  - When it forwards, it may change the request and the options.
  - It may forward the request object it received, or a different object such
    as a copy. In the second case its own object keeps the state it left it
    in, and the later stages cannot touch it.
  - After forwarding, it may rework what came back. Its code is given:
    - the request as the policy received it, so whatever it saved before
      forwarding is still available;
    - the current state of its own request object;
    - the response.
- An `Outcome`'s request is always the state of the object the caller passed
  in. For example, a runner's `on_response` receives the runner's own request
  object.
- `await` is modelled as an ordinary sequential call.

Files:

- `wrappers.dfy`: `Option` and `Result`.
- `construction.dfy`: round trips of the constructor's wrapping.
- `http.dfy`: the request, response, options and context.
- `policies.dfy`: policy kinds and nodes.
- `sender.dfy`: the sender.
- `pipeline.dfy`: construction, `send`, `run` and the context-manager entry points.
- `chain.dfy`: chain shape.
- `traces.dfy`: trace predicates.
- `run.dfy`: run properties.
- `linking.dfy`: the constructor's linking as written (see Findings).

`run` does not check whether the pipeline's scope is open. Calling it before
`__aenter__` or after `__aexit__` is not rejected, and the model has no such
failure.

## Model

| member | source | states |
|---|---|---|
| Pipeline.WrapAll | msrest/pipeline/async_abc.py:134-138 | one node per entry, same count and order; a SansIO entry becomes a runner wrapping that same policy, a full policy is kept as the identical object |
| Pipeline.Entries | msrest/pipeline/async_abc.py:134 | the list iterated over is `policies or []`: empty for `None`, the given list otherwise |
| Pipeline.Next | msrest/pipeline/async_abc.py:139-142 | node i's `next` is node i+1, and the last node's `next` is the sender (and no other node's is) |
| Pipeline.First | msrest/pipeline/async_abc.py:161 | `run` calls node 0 when there are nodes, and the sender when there are none |
| Pipeline.NewPipeline | msrest/pipeline/async_abc.py:126-142 | the pipeline keeps the supplied sender; `None` gives no nodes; otherwise the nodes are the wrapped entries in order |
| Construction.UnwrapAfterWrap | msrest/pipeline/async_abc.py:134-138 | wrapping loses nothing: the entry list, including which entries were SansIO, is read back from the nodes |
| Construction.WrapAfterUnwrap | msrest/pipeline/async_abc.py:134-138 | every node list is what wrapping some entry list gives |
| Construction.NoPoliciesNoNodes | msrest/pipeline/async_abc.py:134-142 | `None` and `[]` both give zero nodes, and the stage `run` calls is then the sender |
| Chain.FollowFromNode | msrest/pipeline/async_abc.py:139-142 | from node i, k hops of `next` land on node i+k, or on the sender once the nodes run out |
| Chain.FollowFromFirst | msrest/pipeline/async_abc.py:139-142 | from the first stage, hop k is node k for k < n, and hop n is the sender |
| Chain.ChainIsSimple | msrest/pipeline/async_abc.py:139-142 | the walk from the first stage is n hops long and meets no stage twice, so there is no cycle |
| Chain.SenderOnlyAtEnd | msrest/pipeline/async_abc.py:141-142 | the walk meets the sender at hop n and at no earlier hop |
| Pipeline.Invoke | msrest/pipeline/async_abc.py:85-89 | the first event of a `send` on a stage is that stage's own call, with exactly the request and options it was given |
| Pipeline.Stamp | msrest/pipeline/async_abc.py:159-160 | the stamped request carries what `build_context` returns for the current resource state, and differs from the caller's request in that attribute only |
| Pipeline.Run | msrest/pipeline/async_abc.py:158-162 | the first event of a run is the call of the first stage, with the request carrying the sender's context and the caller's options unchanged |
| RunProperties.ForwardedCopyLeavesOwnRequest | msrest/pipeline/async_abc.py:87 | a full policy that forwards a copy, and leaves its own request alone afterwards, gets its own request back in the state it kept, whatever later stages do to the copy |
| RunProperties.InvokeWalksChain | msrest/pipeline/async_abc.py:87 | a `send` on a stage calls stages along the chain from it, in chain order: the j-th stage called is the one j hops on |
| RunProperties.RunCallsChainPrefix | msrest/pipeline/async_abc.py:161-162 | `run` calls a non-empty prefix of the chain, in order, each stage at most once; the sender, when called, is called last |
| RunProperties.EventsStayDownstream | msrest/pipeline/async_abc.py:87 | a stage's `send` causes no event of any node before it |
| RunProperties.SenderCalledIffNoShortCircuit | msrest/pipeline/async_abc.py:87 | a `send` reaches the sender if and only if every node it calls forwards |
| RunProperties.RunReachesSenderIffNoShortCircuit | msrest/pipeline/async_abc.py:158-162 | `run` calls the sender if and only if no node it calls answers on its own |
| RunProperties.ShortCircuitIsLast | msrest/pipeline/async_abc.py:87 | a node that answers on its own, wherever it sits, is the last stage the `send` calls |
| RunProperties.RunStopsAtShortCircuit | msrest/pipeline/async_abc.py:161-162 | a run in which node m answers on its own calls exactly nodes 0..m, in order; no later node and not the sender |
| RunProperties.FirstNodeShortCircuit | msrest/pipeline/async_abc.py:161-162 | a first node that answers on its own makes `run` return its answer; no other stage is called, the sender included |
| RunProperties.AllSansIOCallsWholeChain | msrest/pipeline/async_abc.py:85-89 | with only SansIO policies, `run` calls every node once in list order and then the sender |
| RunProperties.RunnerForwardsOnce | msrest/pipeline/async_abc.py:85-89 | the runner calls `on_request`, then `next.send` exactly once with the request `on_request` left and the same options, then only later stages act, then `on_response` on what came back; it returns that response object |
| RunProperties.EmptyPipelineCallsSender | msrest/pipeline/async_abc.py:158-162 | with no policies, `run` is the sender's `send` on the stamped request with the same options, and nothing else |
| RunProperties.RunOverwritesContext | msrest/pipeline/async_abc.py:159-160 | a context the request carried before the run is overwritten: the run does not depend on it |
| RunProperties.RunWithDefaultContext | msrest/pipeline/async_abc.py:102-109 | with a sender that keeps the default `build_context`, the first stage sees `pipeline_context` set to `None` |
| Sender.WithDefaultContext | msrest/pipeline/async_abc.py:102-109 | a sender that does not override `build_context` builds no context (`None`) |
| Sender.EnterSync | msrest/pipeline/async_abc.py:111-112 | entering a sender with plain `with` raises `TypeError("Use async with instead")` |
| Pipeline.EnterSync | msrest/pipeline/async_abc.py:144-145 | entering a pipeline with plain `with` raises `TypeError("Use async with instead")` |
| Pipeline.AEnter | msrest/pipeline/async_abc.py:151-153 | `__aenter__` leaves the transport's resources as the sender's `__aenter__` leaves them, and returns the pipeline itself |
| Pipeline.AExit | msrest/pipeline/async_abc.py:155-156 | `__aexit__` leaves the transport's resources as the sender's `__aexit__` leaves them, given the same exception details; it never suppresses the exception, whatever the sender answers |
| Pipeline.ScopeIsSenderScope | msrest/pipeline/async_abc.py:151-156 | an `async with` around the pipeline has the same effect on the transport's resources as one around the sender, with the same exception details |
| Linking.LinkAsWritten | msrest/pipeline/async_abc.py:139-142 | the constructor's assignments to the `next` fields, position by position, leave each object with the link of the last position that holds it |
| Linking.OnlyRepeatedFullPoliciesCollide | msrest/pipeline/async_abc.py:134-138 | node objects repeat if and only if the same full policy is listed twice; runners are always fresh |
| Linking.DistinctObjectsLinkByPosition | msrest/pipeline/async_abc.py:139-142 | when no object repeats, the fields written are the position links: node i's `next` is node i+1, and the last node's is the sender |
| Linking.DuplicatePolicySkipsNode | msrest/pipeline/async_abc.py:139-142 | for `[a, b, a]` with full policies, `a`'s `next` ends as the sender and no `next` leads to `b` |

## Left out

- The default sender: when no sender is given, `AioHTTPSender` is imported and used (msrest/pipeline/async_abc.py:128-131). It is a transport that is not part of this model, so a sender is always supplied. The test is `if not sender`, so a supplied sender object that is falsy would also be replaced silently by `AioHTTPSender()`. That case is not modelled either.
- `AsyncClientResponse.stream_download` is an I/O stub with no body.
- The `AbstractAsyncContextManager` fallback for old Python versions is version plumbing.
- The synchronous `__exit__` methods are never executed: they exist only to pair with `__enter__`, which raises.
- `AsyncHTTPPolicy.__init__` sets `next` to `None` before linking. The model has no unlinked nodes: the position-based chain is complete from construction on.
- Exceptions are not modelled. Every `send` returns a response: transport errors and errors raised by policies, and their propagation, are out of scope.
- Async scheduling, suspension points, and concurrent runs on one pipeline are not modelled. `await` is an ordinary call.
- The sender's `send` and `build_context` read the state of the transport's resources but do not change it: a run's effect on that state (a connection pool growing, say) is not modelled. A "run outside the scope" failure is not modelled either, since the code has none.
- Full policies that call `next.send` more than once, such as retry policies, are not modelled: a full policy forwards at most once.
- Object identity of the response is not modelled. "The runner returns the same response object" is stated as "it returns the response `next.send` gave, in the state `on_response` leaves it". In-place edits by `on_response` are the only way that state can differ.
- Sharing one full policy object between two pipelines is not modelled. Its `next` is a field of that object (msrest/pipeline/async_abc.py:140, 142), so building a second pipeline overwrites it, and the first pipeline's `run` then continues into the second pipeline's chain. Each `AsyncPipeline` in the model is an independent value. This is the same overwriting as in the Findings row, across two lists instead of within one.
- Full-policy identity: `FullPolicy.id` stands for the Python object, and nothing in the datatype forces two entries with the same `id` to carry the same code. `Linking.IdentitiesConsistent` states that well-formedness condition. The run itself never reads `id`.
- `Pipeline.Run` and the run lemmas use the position-based chain. They agree with the code as written only when no full policy object is listed twice (see Findings and `Linking.DistinctObjectsLinkByPosition`).

## Findings

| source | as written | input that shows it | evidently intended | confidence | as-written member | corrected member |
|---|---|---|---|---|---|---|
| msrest/pipeline/async_abc.py:139-142 | `next` is a field of the policy object, and a full policy is linked as the object supplied, so a full policy listed twice is assigned twice and keeps the later link | policies `[a, b, a]` where `a` and `b` are full policies: `a.next` ends as the sender, and `b` is never called | every list entry is a stage of the chain: n hops to the sender, each entry once, in order | not executed; medium: the library may simply expect each policy object to be listed once, though nothing checks it | Linking.DuplicatePolicySkipsNode | Chain.FollowFromFirst |
