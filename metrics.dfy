/**
 * The built middleware configuration and what it does with one completed
 * request (src/lib.rs:522-629): decide whether the request is excluded,
 * pick the endpoint label (404/405 correction, then masking of unmatched
 * requests), assemble the ordered label set and produce the three
 * observations for the sink.
 */
module Metrics {
  import opened Http
  import opened Labels

  /** The label names, and the optional name that switches the version label on. */
  datatype LabelsConfig = LabelsConfig(endpoint: string, httpMethod: string, status: string, version: Option<string>)

  const DefaultLabelsConfig: LabelsConfig := LabelsConfig("endpoint", "method", "status", None)

  /** The metric names and label configuration a builder is given. */
  datatype MetricsConfig = MetricsConfig(
    requestDurationName: string,
    requestBodySizeName: string,
    responseBodySizeName: string,
    labels: LabelsConfig)

  const DefaultMetricsConfig: MetricsConfig := MetricsConfig(
    "http.server.request.duration",
    "http.server.request.body.size",
    "http.server.response.body.size",
    DefaultLabelsConfig)

  /** The names resolved once at build time; the constant labels are kept in key order. */
  datatype Names = Names(
    requestDuration: string,
    requestSize: string,
    responseSize: string,
    endpoint: string,
    httpMethod: string,
    status: string,
    version: Option<string>,
    constLabels: seq<Label>)

  /** The middleware configuration, immutable once built. */
  datatype Metrics = Metrics(
    names: Names,
    exclude: set<string>,
    excludeRegex: seq<string>,
    excludeStatus: set<StatusCode>,
    enableVersionLabel: bool,
    unmatchedPatternsMask: Option<string>)
  {
    /**
     * What building guarantees: the version label has a name exactly when it
     * is enabled, and the constant labels are in ascending key order.
     */
    predicate Valid() {
      enableVersionLabel == names.version.Some? && SortedByKey(names.constLabels)
    }
  }

  /** A regular-expression engine: does `pattern` match somewhere in `text`? */
  type RegexEngine = (string, string) -> bool

  /** A set of patterns matches when any one of them does; the empty set matches nothing. */
  predicate RegexSetMatches(isMatch: RegexEngine, patterns: seq<string>, text: string)
    ensures patterns == [] ==> !RegexSetMatches(isMatch, patterns, text)
  {
    exists i :: 0 <= i < |patterns| && isMatch(patterns[i], text)
  }

  /** A set with one more pattern matches what the old set matched and what the new pattern matches. */
  lemma RegexSetAppend(isMatch: RegexEngine, patterns: seq<string>, pattern: string, text: string)
    ensures RegexSetMatches(isMatch, patterns + [pattern], text)
      <==> RegexSetMatches(isMatch, patterns, text) || isMatch(pattern, text)
  {
    var ps := patterns + [pattern];
    if RegexSetMatches(isMatch, ps, text) && !isMatch(pattern, text) {
      var i :| 0 <= i < |ps| && isMatch(ps[i], text);
      assert i < |patterns| && ps[i] == patterns[i];
    }
    if RegexSetMatches(isMatch, patterns, text) {
      var i :| 0 <= i < |patterns| && isMatch(patterns[i], text);
      assert ps[i] == patterns[i];
    }
    if isMatch(pattern, text) {
      assert ps[|patterns|] == pattern;
    }
  }

  /** The exclusion test, made on the mixed pattern and the status. */
  predicate IsExcluded(m: Metrics, isMatch: RegexEngine, mixed: string, status: StatusCode)
    ensures m.exclude == {} && m.excludeRegex == [] && m.excludeStatus == {} ==> !IsExcluded(m, isMatch, mixed, status)
  {
    || mixed in m.exclude
    || RegexSetMatches(isMatch, m.excludeRegex, mixed)
    || status in m.excludeStatus
  }

  /**
   * The 404/405 correction: a mixed pattern the server rejected is replaced
   * by the fallback pattern. Only these two status codes trigger it.
   */
  function CorrectedPattern(mixed: string, fallback: string, status: StatusCode): (r: string)
    ensures r == mixed || r == fallback
    ensures r != mixed <==> fallback != mixed && (status == 404 || status == 405)
  {
    if fallback != mixed && (status == 404 || status == 405) then fallback else mixed
  }

  /**
   * The endpoint label of a completed request, or `None` when it is
   * excluded. Exclusion is decided on the mixed pattern, before the
   * correction and before masking; masking applies to unmatched requests only.
   */
  function Endpoint(m: Metrics, isMatch: RegexEngine, mixed: string, fallback: string, status: StatusCode, wasPathMatched: bool)
    : (r: Option<string>)
    ensures r.None? <==> IsExcluded(m, isMatch, mixed, status)
    ensures r.Some? && wasPathMatched ==> r.value == CorrectedPattern(mixed, fallback, status)
    ensures r.Some? && !wasPathMatched && m.unmatchedPatternsMask.Some? ==> r.value == m.unmatchedPatternsMask.value
    ensures r.Some? && !wasPathMatched && m.unmatchedPatternsMask.None? ==> r.value == CorrectedPattern(mixed, fallback, status)
  {
    if IsExcluded(m, isMatch, mixed, status) then None
    else
      var corrected := CorrectedPattern(mixed, fallback, status);
      if wasPathMatched then Some(corrected)
      else
        match m.unmatchedPatternsMask
        case Some(mask) => Some(mask)
        case None => Some(corrected)
  }

  /** The ordered label set of one observation. */
  function LabelSet(m: Metrics, endpoint: string, httpMethod: string, status: StatusCode, version: HttpVersion): (ls: seq<Label>)
    requires m.Valid()
    ensures |ls| == 3 + (if m.enableVersionLabel then 1 else 0) + |m.names.constLabels|
  {
    [Label(m.names.endpoint, endpoint), Label(m.names.httpMethod, httpMethod), Label(m.names.status, StatusText(status))]
    + (if m.enableVersionLabel then [Label(m.names.version.value, VersionLabel(version))] else [])
    + m.names.constLabels
  }

  /**
   * Endpoint, method and status come first, then the version label when it
   * is enabled, then the constant labels in ascending key order.
   */
  lemma LabelSetOrder(m: Metrics, endpoint: string, httpMethod: string, status: StatusCode, version: HttpVersion)
    requires m.Valid()
    ensures var ls := LabelSet(m, endpoint, httpMethod, status, version);
      var n := if m.enableVersionLabel then 4 else 3;
      && |ls| == n + |m.names.constLabels|
      && ls[0] == Label(m.names.endpoint, endpoint)
      && ls[1] == Label(m.names.httpMethod, httpMethod)
      && ls[2].key == m.names.status && DigitsValue(ls[2].value) == status as int
      && (m.enableVersionLabel ==> ls[3] == Label(m.names.version.value, VersionLabel(version)))
      && ls[n..] == m.names.constLabels
      && SortedByKey(ls[n..])
  {
  }

  /** Builds the label set by appending, as `update_metrics` pushes onto its label vector. */
  method BuildLabels(m: Metrics, endpoint: string, httpMethod: string, status: StatusCode, version: HttpVersion)
    returns (labels: seq<Label>)
    requires m.Valid()
    ensures labels == LabelSet(m, endpoint, httpMethod, status, version)
  {
    labels := [];
    labels := labels + [Label(m.names.endpoint, endpoint)];
    labels := labels + [Label(m.names.httpMethod, httpMethod)];
    labels := labels + [Label(m.names.status, StatusText(status))];
    if m.enableVersionLabel {
      labels := labels + [Label(m.names.version.value, VersionLabel(version))];
    }
    ghost var fixed := labels;
    for i := 0 to |m.names.constLabels|
      invariant labels == fixed + m.names.constLabels[..i]
    {
      labels := labels + [m.names.constLabels[i]];
    }
  }

  /** The elapsed time since the request arrived, kept abstract. */
  datatype Elapsed = Elapsed(secs: nat, subsecNanos: nat)

  /** The value of one histogram observation. */
  datatype Sample = Seconds(elapsed: Elapsed) | Bytes(count: nat)

  /** One observation handed to the sink: metric name, label set, value. */
  datatype Observation = Observation(metric: string, labels: seq<Label>, sample: Sample)

  /** What the body wrapper knows about a request when it is dropped, apart from the response size. */
  datatype Completion = Completion(
    version: HttpVersion,
    mixedPattern: string,
    fallbackPattern: string,
    httpMethod: string,
    status: StatusCode,
    wasPathMatched: bool,
    requestSize: nat)

  /** The observations one completed request produces: none when excluded, else duration, request size, response size. */
  function Observations(m: Metrics, isMatch: RegexEngine, c: Completion, elapsed: Elapsed, responseSize: nat)
    : (obs: seq<Observation>)
    requires m.Valid()
    ensures |obs| == 0 || |obs| == 3
    ensures obs == [] <==> IsExcluded(m, isMatch, c.mixedPattern, c.status)
    ensures |obs| == 3 ==>
      && obs[0] == Observation(m.names.requestDuration, obs[0].labels, Seconds(elapsed))
      && obs[1] == Observation(m.names.requestSize, obs[0].labels, Bytes(c.requestSize))
      && obs[2] == Observation(m.names.responseSize, obs[0].labels, Bytes(responseSize))
      && obs[0].labels == LabelSet(m, Endpoint(m, isMatch, c.mixedPattern, c.fallbackPattern, c.status, c.wasPathMatched).value,
                                   c.httpMethod, c.status, c.version)
  {
    match Endpoint(m, isMatch, c.mixedPattern, c.fallbackPattern, c.status, c.wasPathMatched)
    case None => []
    case Some(endpoint) =>
      var labels := LabelSet(m, endpoint, c.httpMethod, c.status, c.version);
      [ Observation(m.names.requestDuration, labels, Seconds(elapsed)),
        Observation(m.names.requestSize, labels, Bytes(c.requestSize)),
        Observation(m.names.responseSize, labels, Bytes(responseSize)) ]
  }

  /** Records one completed request: returns what is handed to the sink. */
  method UpdateMetrics(m: Metrics, isMatch: RegexEngine, c: Completion, elapsed: Elapsed, responseSize: nat)
    returns (obs: seq<Observation>)
    requires m.Valid()
    ensures obs == Observations(m, isMatch, c, elapsed, responseSize)
  {
    if IsExcluded(m, isMatch, c.mixedPattern, c.status) {
      return [];
    }
    var finalPattern := CorrectedPattern(c.mixedPattern, c.fallbackPattern, c.status);
    finalPattern := if c.wasPathMatched then finalPattern
      else match m.unmatchedPatternsMask
        case Some(mask) => mask
        case None => finalPattern;
    var labels := BuildLabels(m, finalPattern, c.httpMethod, c.status, c.version);
    obs := [
      Observation(m.names.requestDuration, labels, Seconds(elapsed)),
      Observation(m.names.requestSize, labels, Bytes(c.requestSize)),
      Observation(m.names.responseSize, labels, Bytes(responseSize))
    ];
  }

  /**
   * Exclusion looks at the mixed pattern, not at the final label: a masked
   * request is recorded under the mask even when the mask itself is in the
   * exclusion set, and is dropped when its raw path is.
   */
  lemma ExclusionSeesMixedPattern(m: Metrics, isMatch: RegexEngine, path: string, status: StatusCode)
    requires m.unmatchedPatternsMask.Some? && m.unmatchedPatternsMask.value in m.exclude
    requires path !in m.exclude && !RegexSetMatches(isMatch, m.excludeRegex, path) && status !in m.excludeStatus
    ensures Endpoint(m, isMatch, path, path, status, false) == Some(m.unmatchedPatternsMask.value)
    ensures Endpoint(m.(exclude := m.exclude + {path}), isMatch, path, path, status, false).None?
  {
  }
}
