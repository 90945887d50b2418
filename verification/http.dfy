/** The data carriers threaded through the chain. The request and response
    classes themselves are defined in msrest/pipeline/__init__.py, which is not
    part of this model: only what the pipeline reads, writes or passes along is
    kept, and everything else is an opaque payload. */
module Http {
  import opened Wrappers

  /** The opaque value a sender's `build_context` produces for one run. */
  datatype Context = Context(data: seq<int>)

  /** The free-form keyword options (`**kwargs`) handed down the chain. */
  type Kwargs = map<string, string>

  /** An outgoing request. `pipelineContext` is the attribute the pipeline
      stamps at the start of every run. */
  datatype Request = Request(
    verb: string,
    url: string,
    headers: map<string, string>,
    body: seq<int>,
    pipelineContext: Option<Context>)

  /** A response produced by the sender and passed back up the chain. */
  datatype Response = Response(status: int, headers: map<string, string>, body: seq<int>)

  /** The states of the shared request and response objects after a call.
      Python mutates both objects in place; the model returns their new states. */
  datatype Exchange = Exchange(request: Request, response: Response)
}
