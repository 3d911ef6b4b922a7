/**
 * The response side of the middleware (src/lib.rs:669-818): once the inner
 * service has produced a response, the middleware derives the route labels
 * and the request size and wraps the response body in a `StreamLog`, which
 * counts the body bytes as they are polled and records the request's
 * observations exactly once, when it is dropped.
 */
module Response {
  import opened Http
  import opened RoutePattern
  import opened Metrics

  /** One poll of the wrapped body: not ready, a chunk, a body error, or the end of the body. */
  datatype BodyPoll = Pending | Chunk(bytes: seq<byte>) | Failed(error: string) | Finished

  /** The bytes a poll adds to the response size. */
  function ChunkLength(p: BodyPoll): (n: nat)
    ensures p.Chunk? ==> n == |p.bytes|
    ensures !p.Chunk? ==> n == 0
  {
    if p.Chunk? then |p.bytes| else 0
  }

  /** The body bytes handed on to the client by a sequence of polls, in order. */
  function Delivered(polls: seq<BodyPoll>): seq<byte>
    decreases |polls|
  {
    if polls == [] then []
    else
      var last := polls[|polls| - 1];
      Delivered(polls[..|polls| - 1]) + (if last.Chunk? then last.bytes else [])
  }

  /** The running response size after a sequence of polls. */
  function BytesSent(polls: seq<BodyPoll>): (n: nat)
    ensures (forall i :: 0 <= i < |polls| ==> !polls[i].Chunk?) ==> n == 0
    decreases |polls|
  {
    if polls == [] then 0 else BytesSent(polls[..|polls| - 1]) + ChunkLength(polls[|polls| - 1])
  }

  /** The response size counts exactly the body bytes delivered. */
  lemma {:induction false} BytesSentIsDelivered(polls: seq<BodyPoll>)
    ensures BytesSent(polls) == |Delivered(polls)|
    decreases |polls|
  {
    if polls != [] {
      BytesSentIsDelivered(polls[..|polls| - 1]);
    }
  }

  /** Polls counted in two stretches add up. */
  lemma {:induction false} BytesSentAppend(a: seq<BodyPoll>, b: seq<BodyPoll>)
    ensures BytesSent(a + b) == BytesSent(a) + BytesSent(b)
    decreases |b|
  {
    if b != [] {
      var init := b[..|b| - 1];
      assert (a + b)[..|a + b| - 1] == a + init;
      assert (a + b)[|a + b| - 1] == b[|b| - 1];
      BytesSentAppend(a, init);
    } else {
      assert a + b == a;
    }
  }

  /** The response size never decreases as more polls arrive. */
  lemma BytesSentMonotone(a: seq<BodyPoll>, b: seq<BodyPoll>)
    ensures BytesSent(a) <= BytesSent(a + b)
  {
    BytesSentAppend(a, b);
  }

  /** The metrics recorder, seen only through the observations it has been handed. */
  class Sink {
    ghost var log: seq<Observation>

    constructor ()
      ensures log == []
    {
      log := [];
    }
  }

  /** The response-body wrapper and the request facts it carries until it is dropped. */
  class StreamLog {
    var responseSize: nat
    const requestSize: nat
    const status: StatusCode
    const mixedPattern: string
    const fallbackPattern: string
    const httpMethod: string
    const version: HttpVersion
    const wasPathMatched: bool
    const inner: Metrics
    const isMatch: RegexEngine
    const sink: Sink
    var dropped: bool
    ghost var polls: seq<BodyPoll>

    /** The response size is the byte count of every chunk polled so far. */
    ghost predicate Valid()
      reads this
    {
      inner.Valid() && responseSize == BytesSent(polls)
    }

    /** What `update_metrics` is told about the request, apart from timing and response size. */
    function Completed(): Completion {
      Completion(version, mixedPattern, fallbackPattern, httpMethod, status, wasPathMatched, requestSize)
    }

    /** A wrapper that has seen no body yet: the response size starts at 0. */
    constructor (inner: Metrics, isMatch: RegexEngine, sink: Sink, status: StatusCode,
                 mixedPattern: string, fallbackPattern: string, httpMethod: string,
                 version: HttpVersion, wasPathMatched: bool, requestSize: nat)
      requires inner.Valid()
      ensures Valid() && responseSize == 0 && polls == [] && !dropped
      ensures this.inner == inner && this.isMatch == isMatch && this.sink == sink
      ensures Completed() == Completion(version, mixedPattern, fallbackPattern, httpMethod,
                                                 status, wasPathMatched, requestSize)
    {
      this.responseSize := 0;
      this.requestSize := requestSize;
      this.status := status;
      this.mixedPattern := mixedPattern;
      this.fallbackPattern := fallbackPattern;
      this.httpMethod := httpMethod;
      this.version := version;
      this.wasPathMatched := wasPathMatched;
      this.inner := inner;
      this.isMatch := isMatch;
      this.sink := sink;
      this.dropped := false;
      this.polls := [];
    }

    /**
     * Passes one poll of the inner body through unchanged; a chunk adds its
     * length to the response size, anything else leaves it as it is.
     */
    method PollNext(p: BodyPoll) returns (out: BodyPoll)
      requires Valid() && !dropped
      modifies this`responseSize, this`polls
      ensures Valid()
      ensures out == p
      ensures polls == old(polls) + [p]
      ensures responseSize == old(responseSize) + ChunkLength(p)
    {
      match p {
        case Chunk(bytes) =>
          responseSize := responseSize + |bytes|;
          out := Chunk(bytes);
        case Failed(error) =>
          out := Failed(error);
        case Finished =>
          out := Finished;
        case Pending =>
          out := Pending;
      }
      assert (polls + [p])[..|polls|] == polls;
      polls := polls + [p];
    }

    /**
     * The drop hook: hands the sink exactly the observations of this request
     * (three, or none when it is excluded), with the response size counted
     * over the body actually delivered. It runs once.
     */
    method Drop(elapsed: Elapsed)
      requires Valid() && !dropped
      modifies this`dropped, sink
      ensures dropped && Valid()
      ensures sink.log == old(sink.log) + Observations(inner, isMatch, Completed(), elapsed, |Delivered(polls)|)
    {
      BytesSentIsDelivered(polls);
      var obs := UpdateMetrics(inner, isMatch, Completed(), elapsed, responseSize);
      sink.log := sink.log + obs;
      dropped := true;
    }
  }

  /** What the middleware reads from the request of a response. */
  datatype RequestInfo = RequestInfo(
    httpMethod: string,
    version: HttpVersion,
    path: string,
    matchPattern: Option<string>,
    matchInfo: seq<Binding>,
    extension: Option<seq<string>>,
    contentLength: Option<seq<byte>>)

  /** The inner service's outcome: a response (its request and status) or an error. */
  datatype HandlerResult = Responded(request: RequestInfo, status: StatusCode) | HandlerError(error: string)

  datatype Result<T> = Ok(value: T) | Err(error: string)

  /** The facts about a request that the wrapper carries, derived from the request and the response status. */
  function CompletionOf(req: RequestInfo, status: StatusCode): (c: Completion)
    ensures c.wasPathMatched <==> req.matchPattern.Some?
    ensures req.matchPattern.None? ==> c.mixedPattern == req.path && c.fallbackPattern == req.path
    ensures req.extension.GetOr([]) == [] ==> c.mixedPattern == c.fallbackPattern
    ensures c.requestSize <= USIZE_MAX && (req.contentLength.None? ==> c.requestSize == 0)
    ensures c.status == status
  {
    EmptyKeepListMixedIsFallback(req.matchPattern, req.path, req.matchInfo);
    var p := RoutePatterns(req.matchPattern, req.path, req.matchInfo, req.extension.GetOr([]));
    Completion(req.version, p.mixed, p.fallback, req.httpMethod, status, req.matchPattern.Some?,
               RequestSize(req.contentLength))
  }

  /**
   * The middleware's response future once the inner service is ready: an
   * error is passed on with nothing recorded; a response gets its body
   * wrapped in a fresh `StreamLog` with a response size of 0.
   */
  method Respond(inner: Metrics, isMatch: RegexEngine, sink: Sink, result: HandlerResult)
    returns (r: Result<StreamLog>)
    requires inner.Valid()
    ensures result.HandlerError? ==> r == Err(result.error)
    ensures result.Responded? ==>
      && r.Ok? && fresh(r.value)
      && r.value.Valid() && !r.value.dropped && r.value.responseSize == 0 && r.value.polls == []
      && r.value.inner == inner && r.value.isMatch == isMatch && r.value.sink == sink
      && r.value.Completed() == CompletionOf(result.request, result.status)
    ensures sink.log == old(sink.log)
  {
    match result {
      case HandlerError(error) =>
        return Err(error);
      case Responded(req, status) =>
        var fallback, mixed := ResolvePatterns(req.matchPattern, req.path, req.matchInfo, req.extension);
        var requestSize := RequestSize(req.contentLength);
        var log := new StreamLog(inner, isMatch, sink, status, mixed, fallback, req.httpMethod,
                                 req.version, req.matchPattern.Some?, requestSize);
        return Ok(log);
    }
  }

  /**
   * One request from the inner service's outcome to the end of its body:
   * the sink receives the observations of the request with the response
   * size of the whole delivered body, or nothing when the handler failed.
   */
  method Serve(inner: Metrics, isMatch: RegexEngine, sink: Sink, result: HandlerResult,
               body: seq<BodyPoll>, elapsed: Elapsed)
    requires inner.Valid()
    modifies sink
    ensures result.HandlerError? ==> sink.log == old(sink.log)
    ensures result.Responded? ==>
      sink.log == old(sink.log)
        + Observations(inner, isMatch, CompletionOf(result.request, result.status), elapsed, |Delivered(body)|)
  {
    var r := Respond(inner, isMatch, sink, result);
    if r.Err? {
      return;
    }
    var log: StreamLog := r.value;
    var i := 0;
    while i < |body|
      invariant 0 <= i <= |body|
      invariant log.Valid() && !log.dropped && log.polls == body[..i]
      invariant log.inner == inner && log.sink == sink
      invariant sink.log == old(sink.log)
      modifies log`responseSize, log`polls
    {
      var out := log.PollNext(body[i]);
      assert body[..i + 1] == body[..i] + [body[i]];
      i := i + 1;
    }
    assert body[..|body|] == body;
    log.Drop(elapsed);
  }

  /**
   * An unmatched request that is not excluded is labelled with the mask
   * when masking is on, and with its raw path when masking is disabled.
   */
  lemma UnmatchedRequestLabel(inner: Metrics, isMatch: RegexEngine, req: RequestInfo, status: StatusCode)
    requires req.matchPattern.None?
    requires !IsExcluded(inner, isMatch, req.path, status)
    ensures var c := CompletionOf(req, status);
      Endpoint(inner, isMatch, c.mixedPattern, c.fallbackPattern, status, c.wasPathMatched)
        == Some(inner.unmatchedPatternsMask.GetOr(req.path))
  {
  }

  /**
   * Without a keep list the mixed pattern is the matched route itself, so
   * the 404/405 correction never fires and a recorded matched request is
   * labelled with its route.
   */
  lemma NoKeepListLabelsRoute(inner: Metrics, isMatch: RegexEngine, req: RequestInfo, status: StatusCode)
    requires req.matchPattern.Some? && req.extension.GetOr([]) == []
    requires !IsExcluded(inner, isMatch, req.matchPattern.value, status)
    ensures var c := CompletionOf(req, status);
      && c.mixedPattern == c.fallbackPattern
      && Endpoint(inner, isMatch, c.mixedPattern, c.fallbackPattern, status, c.wasPathMatched)
           == Some(req.matchPattern.value)
  {
    EmptyKeepListMixedIsFallback(req.matchPattern, req.path, req.matchInfo);
  }

  /**
   * The route `/resource/{cheap}/{expensive}` keeping `cheap`: a successful
   * request is labelled with its cheap value filled in, while a 404 falls
   * back to the route, so rejected values never become label values.
   */
  lemma CheapExpensiveLabels(inner: Metrics, isMatch: RegexEngine, cheap: string, expensive: string, status: StatusCode)
    requires !IsExcluded(inner, isMatch, "/resource/" + (cheap + "/{expensive}"), status)
    ensures var req := RequestInfo("GET", Http11, "/resource/" + cheap + "/" + expensive,
                                   Some(CheapExpensiveRoute), [("cheap", cheap), ("expensive", expensive)],
                                   Some(["cheap"]), None);
      var c := CompletionOf(req, status);
      Endpoint(inner, isMatch, c.mixedPattern, c.fallbackPattern, status, true)
        == if status == 404 || status == 405 then Some(CheapExpensiveRoute)
           else Some("/resource/" + (cheap + "/{expensive}"))
  {
    MixedPatternExample(cheap, expensive);
    if cheap != "{cheap}" {
      CheapValueChangesLabel(cheap);
    }
  }

  /** Filling in any cheap value other than the placeholder text itself changes the route. */
  lemma CheapValueChangesLabel(cheap: string)
    requires cheap != "{cheap}"
    ensures "/resource/" + (cheap + "/{expensive}") != CheapExpensiveRoute
  {
    var mixed := "/resource/" + (cheap + "/{expensive}");
    if |cheap| == 7 {
      assert mixed[10..17] == cheap;
      assert CheapExpensiveRoute[10..17] == "{cheap}";
    }
  }
}
