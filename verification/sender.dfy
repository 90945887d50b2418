/** The terminal stage, AsyncHTTPSender: it performs the exchange, may build
    a context for each run, and owns the transport's resources, which are
    acquired and released by its asynchronous context manager. */
module Sender {
  import opened Wrappers
  import opened Http

  /** The opaque state of the transport's resources (sessions, pools). */
  datatype SenderState = SenderState(resources: seq<int>)

  /** The exception details `__aexit__` receives (`exc_type, exc_value,
      traceback`), or their absence. */
  datatype ExcDetails = NoException | Raised(kind: string, message: string)

  /** The programming errors raised by this module. */
  datatype UsageError = TypeError(message: string)

  /** The message both synchronous entry points raise. */
  const AsyncWithOnly: string := "Use async with instead"

  /** A sender. `send` and `buildContext` are its `send` and
      `build_context`, both of which may read the transport's resources;
      `aenter` and `aexit` are the effects of its `__aenter__` and
      `__aexit__` on those resources (`aexit` also says whether it
      suppresses the exception). */
  datatype AsyncSender = AsyncSender(
    send: (SenderState, Request, Kwargs) -> Exchange,
    buildContext: SenderState -> Option<Context>,
    aenter: SenderState -> SenderState,
    aexit: (SenderState, ExcDetails) -> (SenderState, bool))

  /** A sender that does not override `build_context`: the base class's
      default returns `None`. */
  function WithDefaultContext(
    send: (SenderState, Request, Kwargs) -> Exchange,
    aenter: SenderState -> SenderState,
    aexit: (SenderState, ExcDetails) -> (SenderState, bool)): (s: AsyncSender)
    ensures forall st :: s.buildContext(st).None?
    ensures s.send == send && s.aenter == aenter && s.aexit == aexit
  {
    AsyncSender(send, _ => None, aenter, aexit)
  }

  /** Entering a sender with a plain `with` always raises TypeError. */
  function EnterSync(s: AsyncSender): (r: Result<AsyncSender, UsageError>)
    ensures r.Failure? && r.error == TypeError(AsyncWithOnly)
  {
    Failure(TypeError(AsyncWithOnly))
  }
}
