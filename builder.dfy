/**
 * The middleware builder (src/lib.rs:262-419): configuration state with
 * its defaults, setters that overwrite a field or add to a set, and `Build`,
 * which resolves the namespaced metric names and sorts the constant labels.
 */
module Builder {
  import opened Http
  import opened Labels
  import opened Metrics

  /** The mask unmatched requests get unless masking is changed or disabled. */
  const DefaultMask: string := "UNKNOWN"

  /** The prefix of every metric name: the namespace and an underscore, or nothing. */
  function NamespacePrefix(namespace: Option<string>): (p: string)
    ensures namespace.None? ==> p == ""
    ensures namespace.Some? ==>
      |p| == |namespace.value| + 1 && p[..|namespace.value|] == namespace.value && p[|namespace.value|] == '_'
  {
    match namespace
    case None => ""
    case Some(ns) => ns + "_"
  }

  /** A namespaced metric name splits back into its namespace, the underscore and the configured name. */
  lemma NamespacedNameParts(ns: string, name: string)
    ensures var full := NamespacePrefix(Some(ns)) + name;
      full[..|ns|] == ns && full[|ns|] == '_' && full[|ns| + 1..] == name
  {
  }

  /** The map's entries as labels, each once, in whatever order the map yields them. */
  method CollectLabels(cm: map<string, string>) returns (collected: seq<Label>)
    ensures Enumerates(collected, cm)
  {
    collected := [];
    var rest := cm.Keys;
    while rest != {}
      invariant rest <= cm.Keys
      invariant DistinctKeys(collected)
      invariant forall i :: 0 <= i < |collected| ==>
        collected[i].key in cm && collected[i].key !in rest && cm[collected[i].key] == collected[i].value
      invariant forall k :: k in cm && k !in rest ==> exists i :: 0 <= i < |collected| && collected[i].key == k
      decreases rest
    {
      var k :| k in rest;
      ghost var before := collected;
      collected := collected + [Label(k, cm[k])];
      rest := rest - {k};
      forall k' | k' in cm && k' !in rest
        ensures exists i :: 0 <= i < |collected| && collected[i].key == k'
      {
        if k' == k {
          assert collected[|before|].key == k';
        } else {
          var i :| 0 <= i < |before| && before[i].key == k';
          assert collected[i] == before[i];
        }
      }
    }
  }

  class MetricsBuilder {
    var namespace: Option<string>
    var constLabels: map<string, string>
    var exclude: set<string>
    var excludeRegex: seq<string>
    var excludeStatus: set<StatusCode>
    var unmatchedPatternsMask: Option<string>
    var metricsConfig: MetricsConfig

    /** A builder with no namespace, no constant labels, no exclusions, the default mask and the default names. */
    constructor ()
      ensures namespace == None && constLabels == map[]
      ensures exclude == {} && excludeRegex == [] && excludeStatus == {}
      ensures unmatchedPatternsMask == Some(DefaultMask)
      ensures metricsConfig == DefaultMetricsConfig
    {
      namespace := None;
      constLabels := map[];
      exclude := {};
      excludeRegex := [];
      excludeStatus := {};
      unmatchedPatternsMask := Some(DefaultMask);
      metricsConfig := DefaultMetricsConfig;
    }

    /** Replaces the constant labels. */
    method ConstLabels(value: map<string, string>)
      modifies this`constLabels
      ensures constLabels == value
    {
      constLabels := value;
    }

    method Namespace(value: string)
      modifies this`namespace
      ensures namespace == Some(value)
    {
      namespace := Some(value);
    }

    /** Adds an exact pattern whose requests are not recorded. */
    method Exclude(path: string)
      modifies this`exclude
      ensures exclude == old(exclude) + {path}
    {
      exclude := exclude + {path};
    }

    /** Appends a regular expression to the exclusion set, keeping the earlier ones. */
    method ExcludeRegex(pattern: string)
      modifies this`excludeRegex
      ensures excludeRegex == old(excludeRegex) + [pattern]
    {
      var patterns := excludeRegex;
      patterns := patterns + [pattern];
      excludeRegex := patterns;
    }

    /** Adds a status code whose responses are not recorded. */
    method ExcludeStatus(status: StatusCode)
      modifies this`excludeStatus
      ensures excludeStatus == old(excludeStatus) + {status}
    {
      excludeStatus := excludeStatus + {status};
    }

    method MaskUnmatchedPatterns(mask: string)
      modifies this`unmatchedPatternsMask
      ensures unmatchedPatternsMask == Some(mask)
    {
      unmatchedPatternsMask := Some(mask);
    }

    /** Unmatched requests then keep their raw path as the endpoint label. */
    method DisableUnmatchedPatternMasking()
      modifies this`unmatchedPatternsMask
      ensures unmatchedPatternsMask == None
    {
      unmatchedPatternsMask := None;
    }

    method SetMetricsConfig(value: MetricsConfig)
      modifies this`metricsConfig
      ensures metricsConfig == value
    {
      metricsConfig := value;
    }

    /**
     * The built middleware: metric names carry the namespace prefix, the
     * version label is enabled exactly when it has a name, the constant
     * labels list the configured map once each in ascending key order, and
     * the exclusions and mask are carried over unchanged.
     */
    method Build() returns (m: Metrics)
      ensures m.Valid()
      ensures var prefix := NamespacePrefix(namespace);
        && m.names.requestDuration == prefix + metricsConfig.requestDurationName
        && m.names.requestSize == prefix + metricsConfig.requestBodySizeName
        && m.names.responseSize == prefix + metricsConfig.responseBodySizeName
      ensures m.names.endpoint == metricsConfig.labels.endpoint
      ensures m.names.httpMethod == metricsConfig.labels.httpMethod
      ensures m.names.status == metricsConfig.labels.status
      ensures m.names.version == metricsConfig.labels.version
      ensures m.enableVersionLabel == metricsConfig.labels.version.Some?
      ensures Enumerates(m.names.constLabels, constLabels)
      ensures m.exclude == exclude && m.excludeRegex == excludeRegex && m.excludeStatus == excludeStatus
      ensures m.unmatchedPatternsMask == unmatchedPatternsMask
    {
      var prefix := match namespace case Some(ns) => ns + "_" case None => "";
      var durationName := prefix + metricsConfig.requestDurationName;
      var requestSizeName := prefix + metricsConfig.requestBodySizeName;
      var responseSizeName := prefix + metricsConfig.responseBodySizeName;

      var collected := CollectLabels(constLabels);
      var sorted := new Label[|collected|](i requires 0 <= i < |collected| => collected[i]);
      assert sorted[..] == collected;
      SortInPlace(sorted);
      var labels := sorted[..];
      EnumeratesPermutation(collected, labels, constLabels);

      m := Metrics(
        Names(durationName, requestSizeName, responseSizeName,
              metricsConfig.labels.endpoint, metricsConfig.labels.httpMethod, metricsConfig.labels.status,
              metricsConfig.labels.version, labels),
        exclude, excludeRegex, excludeStatus,
        metricsConfig.labels.version.Some?,
        unmatchedPatternsMask);
    }
  }

  /** A freshly built default middleware masks unmatched requests as "UNKNOWN" and has no version label. */
  method DefaultBuild() returns (m: Metrics)
    ensures m.unmatchedPatternsMask == Some("UNKNOWN")
    ensures !m.enableVersionLabel && m.names.constLabels == []
    ensures m.names.requestDuration == "http.server.request.duration"
    ensures m.exclude == {} && m.excludeRegex == [] && m.excludeStatus == {}
  {
    var b := new MetricsBuilder();
    m := b.Build();
    assert NamespacePrefix(None) + "http.server.request.duration" == "http.server.request.duration";
    EnumeratesSize(m.names.constLabels, b.constLabels);
  }
}
