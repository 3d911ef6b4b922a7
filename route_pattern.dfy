/**
 * The two candidate route labels of a request (src/lib.rs:683-716): the
 * fallback pattern (the matched route pattern, or the raw path when no
 * route matched) and the mixed-cardinality pattern, in which the path
 * parameters named in the route's keep list show their literal values and
 * every other parameter stays a `{name}` placeholder.
 */
module RoutePattern {
  import opened Http
  import opened Template

  /** A path parameter bound by the router: its name and the literal segment it matched. */
  type Binding = (string, string)

  /** What the parameter map holds for one binding. */
  function ParamValue(key: string, val: string, keep: seq<string>): (v: string)
    ensures key in keep ==> v == val
    ensures key !in keep ==> v == Placeholder(key)
  {
    if key in keep then val else Placeholder(key)
  }

  /** The parameter map after inserting the bindings in order; a later binding of a name replaces an earlier one. */
  function ParamsOf(info: seq<Binding>, keep: seq<string>): (params: map<string, string>)
    ensures forall k :: k in params && k !in keep ==> params[k] == Placeholder(k)
    decreases |info|
  {
    if info == [] then map[]
    else
      var last := info[|info| - 1];
      ParamsOf(info[..|info| - 1], keep)[last.0 := ParamValue(last.0, last.1, keep)]
  }

  /** Fills the parameter map from the match info, one binding at a time. */
  method BuildParams(info: seq<Binding>, keep: seq<string>) returns (params: map<string, string>)
    ensures params == ParamsOf(info, keep)
  {
    params := map[];
    var i := 0;
    while i < |info|
      invariant 0 <= i <= |info|
      invariant params == ParamsOf(info[..i], keep)
    {
      var (key, val) := info[i];
      assert info[..i + 1][..i] == info[..i];
      i := i + 1;
      if key in keep {
        params := params[key := val];
        continue;
      }
      params := params[key := Placeholder(key)];
    }
    assert info[..|info|] == info;
  }

  /** The parameter map has exactly the bound names as keys. */
  lemma {:induction false} ParamsOfKeys(info: seq<Binding>, keep: seq<string>)
    ensures ParamsOf(info, keep).Keys == set i | 0 <= i < |info| :: info[i].0
    decreases |info|
  {
    if info != [] {
      var init := info[..|info| - 1];
      ParamsOfKeys(init, keep);
      assert forall i :: 0 <= i < |init| ==> init[i] == info[i];
      var s := set i | 0 <= i < |info| :: info[i].0;
      assert s == (set i | 0 <= i < |init| :: init[i].0) + {info[|info| - 1].0};
    }
  }

  /**
   * A kept name maps to the literal value of its last binding; any other
   * bound name maps to its own placeholder.
   */
  lemma {:induction false} ParamsOfEntry(info: seq<Binding>, keep: seq<string>, key: string)
    requires key in ParamsOf(info, keep)
    ensures key !in keep ==> ParamsOf(info, keep)[key] == Placeholder(key)
    ensures key in keep ==>
      exists i :: 0 <= i < |info| && info[i].0 == key &&
        ParamsOf(info, keep)[key] == info[i].1 &&
        (forall j :: i < j < |info| ==> info[j].0 != key)
    decreases |info|
  {
    var n := |info|;
    var init := info[..n - 1];
    var last := info[n - 1];
    assert ParamsOf(info, keep) == ParamsOf(init, keep)[last.0 := ParamValue(last.0, last.1, keep)];
    if last.0 != key {
      ParamsOfEntry(init, keep, key);
      assert ParamsOf(info, keep)[key] == ParamsOf(init, keep)[key];
      if key in keep {
        var i :| 0 <= i < |init| && init[i].0 == key && ParamsOf(init, keep)[key] == init[i].1 &&
          forall j :: i < j < |init| ==> init[j].0 != key;
        assert info[i] == init[i];
        assert forall j :: i < j < n ==> info[j].0 != key by {
          forall j | i < j < n ensures info[j].0 != key {
            if j < n - 1 {
              assert info[j] == init[j];
            }
          }
        }
      }
    } else if key in keep {
      assert ParamsOf(info, keep)[key] == info[n - 1].1;
      assert 0 <= n - 1 < |info| && info[n - 1].0 == key;
    }
  }

  /** The fallback pattern and the mixed-cardinality pattern of one request. */
  datatype Patterns = Patterns(fallback: string, mixed: string)

  /**
   * The two candidate labels. A substitution failure is recovered from by
   * using the matched pattern unchanged; it never reaches the response.
   */
  function RoutePatterns(matched: Option<string>, path: string, info: seq<Binding>, keep: seq<string>): (p: Patterns)
    ensures matched.None? ==> p.fallback == path && p.mixed == path
    ensures matched.Some? ==> p.fallback == matched.value
    ensures matched.Some? && Format(matched.value, ParamsOf(info, keep)).None? ==> p.mixed == matched.value
    ensures matched.Some? && Format(matched.value, ParamsOf(info, keep)).Some? ==>
      p.mixed == Format(matched.value, ParamsOf(info, keep)).value
  {
    match matched
    case None => Patterns(path, path)
    case Some(pattern) =>
      match Format(pattern, ParamsOf(info, keep))
      case Some(s) => Patterns(pattern, s)
      case None => Patterns(pattern, pattern)
  }

  /**
   * Without a keep list the mixed pattern always equals the fallback
   * pattern, whether substitution succeeds or not.
   */
  lemma EmptyKeepListMixedIsFallback(matched: Option<string>, path: string, info: seq<Binding>)
    ensures RoutePatterns(matched, path, info, []).mixed == RoutePatterns(matched, path, info, []).fallback
  {
    if matched.Some? && Format(matched.value, ParamsOf(info, [])).Some? {
      FormatIdentity(matched.value, ParamsOf(info, []));
    }
  }

  /**
   * Computes both labels of a request; a missing cardinality extension
   * means an empty keep list.
   */
  method ResolvePatterns(matched: Option<string>, path: string, info: seq<Binding>, extension: Option<seq<string>>)
    returns (fallback: string, mixed: string)
    ensures Patterns(fallback, mixed) == RoutePatterns(matched, path, info, extension.GetOr([]))
  {
    var keep := match extension
      case Some(params) => params
      case None => [];
    fallback := matched.GetOr(path);
    match matched {
      case None =>
        mixed := path;
      case Some(pattern) =>
        var params := BuildParams(info, keep);
        match Format(pattern, params) {
          case Some(s) => mixed := s;
          case None => mixed := pattern;
        }
    }
  }

  /** The route of the mixed-cardinality example: one parameter kept, one collapsed. */
  const CheapExpensiveRoute: string := "/resource/{cheap}/{expensive}"

  /**
   * The route `/resource/{cheap}/{expensive}` keeping `cheap`: a request to
   * `/resource/<cheap>/<expensive>` gets the mixed label
   * `/resource/<cheap>/{expensive}`, whatever the two values are.
   */
  lemma MixedPatternExample(cheap: string, expensive: string)
    ensures RoutePatterns(Some(CheapExpensiveRoute), "/resource/" + cheap + "/" + expensive,
      [("cheap", cheap), ("expensive", expensive)], ["cheap"])
      == Patterns(CheapExpensiveRoute, "/resource/" + (cheap + "/{expensive}"))
  {
    ExampleParams(cheap, expensive);
    ExampleFormat(cheap);
  }

  lemma ExampleParams(cheap: string, expensive: string)
    ensures ParamsOf([("cheap", cheap), ("expensive", expensive)], ["cheap"])
      == map["cheap" := cheap, "expensive" := "{expensive}"]
  {
    assert [("cheap", cheap), ("expensive", expensive)][..1] == [("cheap", cheap)];
    assert [("cheap", cheap)][..0] == [];
    assert "cheap" in ["cheap"] && "expensive" !in ["cheap"];
    assert ParamsOf([("cheap", cheap)], ["cheap"]) == map["cheap" := cheap];
    assert Placeholder("expensive") == "{expensive}";
  }

  lemma ExampleFormat(cheap: string)
    ensures Format(CheapExpensiveRoute, map["cheap" := cheap, "expensive" := "{expensive}"])
      == Some("/resource/" + (cheap + "/{expensive}"))
  {
    var params := map["cheap" := cheap, "expensive" := "{expensive}"];
    ExampleStrings(cheap);
    FormatTwoPlaceholders("/resource/", "cheap", "/", "expensive", params);
  }

  lemma ExampleStrings(cheap: string)
    ensures "/resource/" + (Placeholder("cheap") + ("/" + Placeholder("expensive"))) == CheapExpensiveRoute
    ensures cheap + ("/" + "{expensive}") == cheap + "/{expensive}"
  {
    assert Placeholder("cheap") == "{cheap}" && Placeholder("expensive") == "{expensive}";
  }
}
