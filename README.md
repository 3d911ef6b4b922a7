# actix-web-metrics: route labels and request bookkeeping in Dafny

actix-web-metrics is an actix-web middleware. For every recorded request it
records three histograms:

- request duration;
- request body size;
- response body size.

Each observation carries the same label set: endpoint, method and status,
an optional HTTP version label, and the configured constant labels.

This project models the per-request logic of `src/lib.rs` and proves
properties of it. The modules follow the concerns of that file:

| file | module | what it models |
|---|---|---|
| `http.dfy` | `Http` | Status code and version label texts; the `content-length` parse behind the request size. |
| `template.dfy` | `Template` | The `{name}` substitution that builds the mixed-cardinality label. |
| `route_pattern.dfy` | `RoutePattern` | The fallback and mixed-cardinality patterns derived from the matched route, the match info and the keep list. |
| `labels.dfy` | `Labels` | Labels and the key order of the constant labels. This includes the in-place sort of the constant-label vector. |
| `metrics.dfy` | `Metrics` | The built configuration, in four steps: (1) the exclusion test on the mixed pattern; (2) the 404/405 correction; (3) masking of unmatched requests; (4) the ordered label set and the three observations. |
| `builder.dfy` | `Builder` | The builder: its defaults, its setters, and `build`. `build` prefixes the metric names with the namespace and sorts the constant labels. |
| `stream_log.dfy` | `Response` | The response side. The response future wraps the body in a `StreamLog`. The `StreamLog` counts body bytes as they are polled and records the request once, when it is dropped. |

Modelling choices:

- **Metrics sink.** The sink is a `Sink` object with a ghost log of observations. A recorded request appends exactly three observations; an excluded request appends none.
- **Duration.** The elapsed time is an abstract `Elapsed` value.
- **Regex engine.** The engine is a parameter `isMatch(pattern, text)`. A regex set matches when one of its patterns does.
- **Map iteration order.** The builder collects the constant-label map in an order chosen nondeterministically. `Labels.ConstLabelsCanonical` shows that the sorted result does not depend on that order.

Two facts about the code that the model keeps:

- **What exclusion tests.** Exclusion is tested on the mixed-cardinality pattern, before the 404/405 correction and before masking (src/lib.rs:572-577). `Metrics.ExclusionSeesMixedPattern` shows that a masked request is recorded even when the mask itself is excluded.
- **No gauge.** src/lib.rs records no active-request gauge, so the model has none.

## Model

| member | source | states |
|---|---|---|
| Http.StatusText | src/lib.rs:598 | The status label is three decimal digits whose value is the status code. |
| Http.StatusTextInjective | src/lib.rs:598 | Distinct status codes get distinct status labels. |
| Http.VersionLabel | src/lib.rs:619-628 | The five known versions map to `HTTP/x.y` texts of eight characters. Any other version maps to `<unrecognized>`, and only such a version does. |
| Http.ParseVersionLabel | src/lib.rs:619-628 | Reading a version label back gives a version whose label is that text. |
| Http.VersionLabelRoundTrip | src/lib.rs:619-628 | Reading back the label of any version gives that version. |
| Http.VersionLabelInjective | src/lib.rs:619-628 | Distinct versions get distinct labels. |
| Http.ToStr | src/lib.rs:722 | Header bytes convert to text exactly when every byte is visible ASCII or tab. The text then has the same character codes. |
| Http.ParseUsize | src/lib.rs:723 | Parsing succeeds exactly when the digits after an optional `+` are nonempty, all decimal, and at most the 64-bit usize maximum. The parsed value is the decimal value of those digits, so `+042` and `042` both give 42, and it never exceeds that maximum. |
| Http.RequestSize | src/lib.rs:718-724 | The request size is the parsed `content-length`. It is 0 when the header is absent, not visible ASCII, or unparsable. It never exceeds the usize maximum. |
| Http.ParseDecimal | src/lib.rs:723 | The decimal text of any n up to the usize maximum parses back to n. |
| Http.RequestSizeOfDecimal | src/lib.rs:718-724 | A `content-length` header carrying the decimal text of n gives request size n when n fits a usize, and 0 when it overflows. |
| Template.CloseBrace | src/lib.rs:709 | Finds the first `}` at or after a position, or reports that there is none. |
| Template.Placeholder | src/lib.rs:706 | A placeholder is the key between `{` and `}`. |
| Template.Format | src/lib.rs:709-714 | Substitutes every `{name}` of the route from the parameter map, and fails on an unclosed `{` or a missing name. `FormatSucceeds` states when it succeeds. `FormatIdentity` states that placeholders mapped to themselves leave the route unchanged. |
| Template.FormatSucceeds | src/lib.rs:709-714 | Substitution succeeds exactly when every `{` is closed and every placeholder name has an entry. |
| Template.FormatIdentity | src/lib.rs:699-714 | When every entry maps a key to its own placeholder, a successful substitution returns the pattern unchanged. |
| Template.FormatLiteralPrefix | src/lib.rs:709 | Text without `{` in front of a pattern is copied through substitution; failure stays failure. |
| Template.FormatLeadingPlaceholder | src/lib.rs:709 | A leading placeholder is replaced by its entry, and substitution fails when the entry is missing. |
| Template.FormatTwoPlaceholders | src/lib.rs:709 | A pattern `pre{k1}mid{k2}` with both names present substitutes both entries. |
| RoutePattern.ParamValue | src/lib.rs:700-706 | A kept parameter maps to its literal value; any other maps to its own `{key}` placeholder. |
| RoutePattern.ParamsOf | src/lib.rs:699-707 | The parameter map after inserting the bindings in order. Every key outside the keep list maps to its own placeholder. `ParamsOfKeys` and `ParamsOfEntry` state its keys and its values. |
| RoutePattern.BuildParams | src/lib.rs:699-707 | The loop over the match info builds exactly the map `ParamsOf` describes. |
| RoutePattern.ParamsOfKeys | src/lib.rs:699-707 | The map's keys are exactly the match-info keys. |
| RoutePattern.ParamsOfEntry | src/lib.rs:699-707 | A key outside the keep list maps to its placeholder. A kept key maps to the value of its last binding in the match info. |
| RoutePattern.RoutePatterns | src/lib.rs:691-716 | With no matched route, both patterns are the raw path. Otherwise the fallback is the route. The mixed pattern is the substitution result, or the unmodified route when substitution fails. |
| RoutePattern.EmptyKeepListMixedIsFallback | src/lib.rs:685-716 | With an empty keep list the mixed pattern always equals the fallback pattern. |
| RoutePattern.ResolvePatterns | src/lib.rs:683-716 | Computes both patterns as `RoutePatterns` states. A missing extension means an empty keep list. |
| RoutePattern.MixedPatternExample | tests/integration_tests.rs:159-196 | Route `/resource/{cheap}/{expensive}` keeping `cheap`: a request to `/resource/<c>/<e>` gets mixed label `/resource/<c>/{expensive}` and fallback label the route. |
| Labels.StrLess | src/lib.rs:398 | The key order of `sort_by_key` on `str`: lexicographic on code points, a proper prefix first; UTF-8 keeps code-point order, so this is the byte order `str` uses. `StrLessIrreflexive`, `StrLessAsymmetric`, `StrLessTransitive` and `StrLessTotal` state that it is a strict total order. |
| Labels.StrLessIrreflexive | src/lib.rs:398 | No key is below itself. |
| Labels.StrLessAsymmetric | src/lib.rs:398 | Of two keys, at most one is below the other. |
| Labels.StrLessTotal | src/lib.rs:398 | The key order is total. |
| Labels.StrLessTransitive | src/lib.rs:398 | The key order is transitive. |
| Labels.Insert | src/lib.rs:398 | Inserting a label with a new key into a key-sorted sequence keeps it sorted and adds exactly that label. |
| Labels.SortByKey | src/lib.rs:398 | The result is strictly key-sorted and a permutation of the input. |
| Labels.SortInPlace | src/lib.rs:398 | Sorting the array in place leaves exactly `SortByKey` of its old contents. |
| Labels.SortedUnique | src/lib.rs:398 | Two key-sorted sequences with the same labels are equal. |
| Labels.EnumeratesSize | src/lib.rs:390-397 | Listing each entry of the constant-label map once gives as many labels as the map has entries. |
| Labels.ConstLabelsCanonical | src/lib.rs:390-398 | Any two key-sorted listings of the same map are equal, so the label order does not depend on map iteration order. |
| Metrics.RegexSetMatches | src/lib.rs:573 | A regex set matches a text when one of its patterns does. The empty set, the builder's default, matches nothing. |
| Metrics.RegexSetAppend | src/lib.rs:307-312 | A set with one more pattern matches exactly what the old set matched plus what the new pattern matches. |
| Metrics.IsExcluded | src/lib.rs:572-577 | A request is excluded when its mixed pattern is in the exact set or matched by the regex set, or its status is in the status set. With all three empty nothing is excluded. |
| Metrics.CorrectedPattern | src/lib.rs:579-585 | The fallback pattern replaces the mixed one exactly when the two differ and the status is 404 or 405. |
| Metrics.Endpoint | src/lib.rs:572-593 | `None` (nothing recorded) exactly when the mixed pattern is excluded by set or regex, or the status is excluded. A matched request gets the corrected pattern. An unmatched one gets the mask when there is one, and the corrected pattern otherwise. |
| Metrics.LabelSetOrder | src/lib.rs:595-609 | The labels are endpoint, method and status (whose value reads back as the code). The version label follows only when enabled. The key-sorted constant labels come last, for a length of 3, plus 1 with the version label, plus the constant-label count. |
| Metrics.LabelSet | src/lib.rs:595-609 | The label set has 3 labels, plus 1 with the version label, plus the constant labels. `LabelSetOrder` states their order and values. |
| Metrics.BuildLabels | src/lib.rs:595-609 | The label vector built by pushes is exactly `LabelSet`. |
| Metrics.Observations | src/lib.rs:572-616 | A request yields none or exactly three observations; none exactly when it is excluded. The three carry duration, request size and response size under the three metric names and one shared label set, which is `LabelSet` for the request's endpoint, method, status and version. |
| Metrics.UpdateMetrics | src/lib.rs:560-617 | Produces exactly `Observations` for the request. |
| Metrics.ExclusionSeesMixedPattern | src/lib.rs:572-593 | An unmatched request is recorded under the mask even when the mask is in the exclusion set. It is dropped when its raw path is in the set. |
| Builder.NamespacePrefix | src/lib.rs:347-351 | The prefix is empty without a namespace, and the namespace followed by `_` with one. |
| Builder.NamespacedNameParts | src/lib.rs:353-356 | A namespaced metric name splits back into the namespace, `_` and the configured name. |
| Builder.MetricsBuilder.constructor | src/lib.rs:276-286 | A new builder has no namespace, no constant labels and no exclusions. Its mask is `UNKNOWN` and its names are the defaults. |
| Builder.MetricsBuilder.ConstLabels | src/lib.rs:289-292 | Replaces the constant-label map. |
| Builder.MetricsBuilder.Namespace | src/lib.rs:295-298 | Sets the namespace. |
| Builder.MetricsBuilder.Exclude | src/lib.rs:301-304 | Adds one path to the exact exclusion set. |
| Builder.MetricsBuilder.ExcludeRegex | src/lib.rs:307-312 | Appends one pattern to the regex exclusion list, keeping the earlier ones. |
| Builder.MetricsBuilder.ExcludeStatus | src/lib.rs:315-318 | Adds one status code to the excluded statuses. |
| Builder.MetricsBuilder.MaskUnmatchedPatterns | src/lib.rs:323-326 | Sets the mask. |
| Builder.MetricsBuilder.DisableUnmatchedPatternMasking | src/lib.rs:331-334 | Removes the mask. |
| Builder.MetricsBuilder.SetMetricsConfig | src/lib.rs:337-340 | Replaces the metric and label names. |
| Builder.CollectLabels | src/lib.rs:390-397 | Collecting the constant-label map, in whatever order it yields its entries, lists every entry exactly once with its value. |
| Builder.MetricsBuilder.Build | src/lib.rs:346-419 | The result satisfies the middleware invariant: the version label is enabled exactly when named, and the constant labels are key-sorted. Metric names carry the namespace prefix. The constant labels list each map entry once. Exclusions and mask carry over unchanged. |
| Builder.DefaultBuild | src/lib.rs:276-286 | A default middleware masks unmatched requests as `UNKNOWN` and has no version label and no constant labels. Its duration metric is `http.server.request.duration` and it has no exclusions. |
| Response.ChunkLength | src/lib.rs:810-816 | A chunk adds its length; an error, the end of the body or a pending poll adds nothing. |
| Response.BytesSent | src/lib.rs:812 | The running `response_size` after a sequence of polls; 0 when no poll was a chunk. `BytesSentIsDelivered` ties it to the bytes delivered. |
| Response.BytesSentIsDelivered | src/lib.rs:805-818 | The running response size equals the number of body bytes delivered. |
| Response.BytesSentAppend | src/lib.rs:812 | Sizes counted over two stretches of polls add up. |
| Response.BytesSentMonotone | src/lib.rs:812 | The response size never decreases. |
| Response.StreamLog.constructor | src/lib.rs:727-739 | A new wrapper starts with response size 0 and no polls, carrying the request's facts. |
| Response.StreamLog.PollNext | src/lib.rs:805-818 | Returns the inner poll unchanged. A chunk adds its length to the response size; nothing else changes it. The size remains the byte count of all polls so far. |
| Response.StreamLog.Drop | src/lib.rs:789-794 | Appends to the sink exactly the request's observations, with the response size counted over the delivered body. Runs once. |
| Response.Respond | src/lib.rs:669-740 | A handler error is passed on, with nothing recorded and no wrapper. A response gets a fresh wrapper with response size 0, carrying the derived patterns, the request size and the response status. |
| Response.Serve | src/lib.rs:669-818 | Over a whole request the sink receives exactly the request's observations, with the response size of the whole delivered body. It receives nothing when the handler failed. |
| Response.CompletionOf | src/lib.rs:677-739 | The facts the wrapper carries. `wasPathMatched` holds exactly when a route matched. Without a match both patterns are the raw path. Without a keep list the mixed pattern is the fallback. The request size is at most the usize maximum, and 0 without a `content-length` header. The status is the response status. |
| Response.UnmatchedRequestLabel | src/lib.rs:587-593 | An unmatched, non-excluded request is labelled with the mask, or with its raw path when masking is disabled. |
| Response.NoKeepListLabelsRoute | src/lib.rs:579-585 | Without a keep list the correction never fires, and a matched request is labelled with its route. |
| Response.CheapExpensiveLabels | tests/integration_tests.rs:154-212 | For the cheap/expensive route, a 404 or 405 is labelled with the route. Any other status is labelled with the cheap value filled in. |
| Response.CheapValueChangesLabel | tests/integration_tests.rs:199-206 | Filling in any cheap value other than `{cheap}` changes the label, so the 404 correction applies. |

## Left out

- **Async plumbing.** The `Transform`/`Service` wiring, `forward_ready!`, and the `Future`/`Pin`/`Context` polling are reduced to one synchronous flow, `Response.Serve`. A pending inner body is one more poll value.
- **Float duration and histogram emission.** The float duration and the `histogram!`/`describe_histogram!` calls are external. The model keeps the elapsed time abstract and the sink as a ghost log. Sizes are recorded as integers, not as `f64`.
- **`Box::leak` interning of names.** It has no observable effect.
- **Regex matching.** The engine is a parameter. The panic of `RegexSet::new(..).unwrap()` on an invalid pattern is not modelled.
- **Substitution syntax.** Escaped braces (`{{`, `}}`), a stray `}` and format specs are not modelled; only plain `{name}` substitution and its failure are. The `warn!` log on failure is I/O.
- **Builder setters of `LabelsConfig` and `ActixWebMetricsConfig`** (src/lib.rs:448-520). They are field replacements on value types. The model builds a `LabelsConfig` or `MetricsConfig` value directly.
- **Builder `Default` impl and `StreamLog::size`.** They only delegate, to `new()` and to the inner body.
- **Response.StreamLog.PollNext:** the response size is a natural number, so the model does not capture a usize overflow after more than 2^64-1 body bytes.
- **Response.StreamLog.Drop:** the one-shot drop is a precondition plus a `dropped` flag; Rust guarantees it by ownership.
- **Status and version values.** The status code is a value from 100 to 999, and the method is the text of `Method::as_str`. Versions other than the five known ones are one `Unrecognized` value.
- **Stale test APIs, snapshot assertions, and the example servers.** These are outside `src/lib.rs` and are not part of this model.
