/**
 * Template substitution as the middleware uses it to build the
 * mixed-cardinality route label: every `{name}` in a route pattern is
 * replaced by `params[name]`. Substitution fails when a `{` is never closed
 * or when a placeholder has no entry in `params`.
 */
module Template {
  import opened Http

  /** The index of the first `}` at or after `i`, or `|t|` when there is none. */
  function CloseBrace(t: string, i: nat): (j: nat)
    requires i <= |t|
    ensures i <= j <= |t|
    ensures j < |t| ==> t[j] == '}'
    ensures forall k :: i <= k < j ==> t[k] != '}'
    decreases |t| - i
  {
    if i == |t| || t[i] == '}' then i else CloseBrace(t, i + 1)
  }

  /** Substitutes every placeholder of `t` from `params`; `None` is the formatting error. */
  function Format(t: string, params: map<string, string>): (r: Option<string>)
    decreases |t|
  {
    if t == [] then Some("")
    else if t[0] == '{' then
      var j := CloseBrace(t, 1);
      if j == |t| then None
      else if t[1..j] !in params then None
      else
        match Format(t[j + 1..], params)
        case None => None
        case Some(rest) => Some(params[t[1..j]] + rest)
    else
      match Format(t[1..], params)
      case None => None
      case Some(rest) => Some([t[0]] + rest)
  }

  /**
   * The placeholder names of `t` in order of appearance, or `None` when a
   * `{` is left unclosed: the independent description of what Format needs.
   */
  function Placeholders(t: string): (r: Option<seq<string>>)
    decreases |t|
  {
    if t == [] then Some([])
    else if t[0] == '{' then
      var j := CloseBrace(t, 1);
      if j == |t| then None
      else
        match Placeholders(t[j + 1..])
        case None => None
        case Some(rest) => Some([t[1..j]] + rest)
    else Placeholders(t[1..])
  }

  /** The text a placeholder for `key` has in a route pattern. */
  function Placeholder(key: string): (p: string)
    ensures |p| == |key| + 2 && p[0] == '{' && p[|p| - 1] == '}' && p[1..|p| - 1] == key
  {
    "{" + key + "}"
  }

  /** Substitution succeeds exactly when every `{` is closed and every placeholder has an entry. */
  lemma {:induction false} FormatSucceeds(t: string, params: map<string, string>)
    ensures Format(t, params).Some? <==>
      Placeholders(t).Some? &&
      forall i :: 0 <= i < |Placeholders(t).value| ==> Placeholders(t).value[i] in params
    decreases |t|
  {
    if t == [] {
    } else if t[0] == '{' {
      var j := CloseBrace(t, 1);
      if j < |t| {
        FormatSucceeds(t[j + 1..], params);
        if Placeholders(t[j + 1..]).Some? {
          var rest := Placeholders(t[j + 1..]).value;
          assert Placeholders(t).value == [t[1..j]] + rest;
          assert Placeholders(t).value[0] == t[1..j];
          assert forall i :: 0 <= i < |rest| ==> Placeholders(t).value[i + 1] == rest[i];
        }
      }
    } else {
      FormatSucceeds(t[1..], params);
    }
  }

  /**
   * When every entry of `params` maps a key to its own placeholder,
   * a successful substitution gives back the template unchanged.
   */
  lemma {:induction false} FormatIdentity(t: string, params: map<string, string>)
    requires forall k :: k in params ==> params[k] == Placeholder(k)
    requires Format(t, params).Some?
    ensures Format(t, params).value == t
    decreases |t|
  {
    if t == [] {
    } else if t[0] == '{' {
      var j := CloseBrace(t, 1);
      FormatIdentity(t[j + 1..], params);
      PlaceholderThenRest(t, j);
    } else {
      FormatIdentity(t[1..], params);
      assert t == [t[0]] + t[1..];
    }
  }

  /** A text that opens with a placeholder closing at `j` is that placeholder followed by the rest. */
  lemma PlaceholderThenRest(t: string, j: nat)
    requires 0 < j < |t| && t[0] == '{' && t[j] == '}'
    ensures Placeholder(t[1..j]) + t[j + 1..] == t
  {
    assert t == [t[0]] + t[1..j] + [t[j]] + t[j + 1..];
  }

  /** `r` with `p` put in front of its text, failure staying failure. */
  function Prefixed(p: string, r: Option<string>): (q: Option<string>)
    ensures q.Some? <==> r.Some?
    ensures q.Some? ==> q.value == p + r.value
  {
    match r
    case None => None
    case Some(s) => Some(p + s)
  }

  /** A prefix without `{` is copied through substitution. */
  lemma {:induction false} FormatLiteralPrefix(lit: string, t: string, params: map<string, string>)
    requires forall i :: 0 <= i < |lit| ==> lit[i] != '{'
    ensures Format(lit + t, params) == Prefixed(lit, Format(t, params))
    decreases |lit|
  {
    if lit == [] {
      assert lit + t == t;
      if Format(t, params).Some? {
        assert lit + Format(t, params).value == Format(t, params).value;
      }
    } else {
      var u := lit + t;
      assert u[0] == lit[0] && u[1..] == lit[1..] + t;
      FormatLiteralPrefix(lit[1..], t, params);
      if Format(t, params).Some? {
        var s := Format(t, params).value;
        assert lit + s == [lit[0]] + (lit[1..] + s);
      }
    }
  }

  /** A leading placeholder is replaced by its entry, and fails without one. */
  lemma FormatLeadingPlaceholder(key: string, t: string, params: map<string, string>)
    requires forall i :: 0 <= i < |key| ==> key[i] != '}'
    ensures key !in params ==> Format(Placeholder(key) + t, params) == None
    ensures key in params ==> Format(Placeholder(key) + t, params) == Prefixed(params[key], Format(t, params))
  {
    var u := Placeholder(key) + t;
    assert CloseBrace(u, 1) == |key| + 1 by {
      assert forall k :: 1 <= k < |key| + 1 ==> u[k] == key[k - 1];
      CloseBraceFirst(u, 1, |key| + 1);
    }
    assert u[1..|key| + 1] == key;
    assert u[|key| + 2..] == t;
  }

  lemma CloseBraceFirst(t: string, i: nat, j: nat)
    requires i <= j < |t| && t[j] == '}'
    requires forall k :: i <= k < j ==> t[k] != '}'
    ensures CloseBrace(t, i) == j
  {
  }

  /** A successful substitution of `t` extends to `lit + t`. */
  lemma LiteralThen(lit: string, t: string, v: string, params: map<string, string>)
    requires forall i :: 0 <= i < |lit| ==> lit[i] != '{'
    requires Format(t, params) == Some(v)
    ensures Format(lit + t, params) == Some(lit + v)
  {
    FormatLiteralPrefix(lit, t, params);
  }

  /** A successful substitution of `t` extends to `{key}` followed by `t`. */
  lemma PlaceholderThen(key: string, t: string, v: string, params: map<string, string>)
    requires forall i :: 0 <= i < |key| ==> key[i] != '}'
    requires key in params
    requires Format(t, params) == Some(v)
    ensures Format(Placeholder(key) + t, params) == Some(params[key] + v)
  {
    FormatLeadingPlaceholder(key, t, params);
  }

  /** A lone placeholder whose name is present substitutes to its entry. */
  lemma PlaceholderAlone(key: string, params: map<string, string>)
    requires forall i :: 0 <= i < |key| ==> key[i] != '}'
    requires key in params
    ensures Format(Placeholder(key), params) == Some(params[key])
  {
    FormatLeadingPlaceholder(key, "", params);
    assert Placeholder(key) + "" == Placeholder(key);
    assert params[key] + "" == params[key];
  }

  /** A route pattern `pre{k1}mid{k2}` with both names present substitutes both. */
  lemma FormatTwoPlaceholders(pre: string, k1: string, mid: string, k2: string, params: map<string, string>)
    requires forall i :: 0 <= i < |pre| ==> pre[i] != '{'
    requires forall i :: 0 <= i < |mid| ==> mid[i] != '{'
    requires forall i :: 0 <= i < |k1| ==> k1[i] != '}'
    requires forall i :: 0 <= i < |k2| ==> k2[i] != '}'
    requires k1 in params && k2 in params
    ensures Format(pre + (Placeholder(k1) + (mid + Placeholder(k2))), params)
      == Some(pre + (params[k1] + (mid + params[k2])))
  {
    PlaceholderAlone(k2, params);
    LiteralThen(mid, Placeholder(k2), params[k2], params);
    PlaceholderThen(k1, mid + Placeholder(k2), mid + params[k2], params);
    LiteralThen(pre, Placeholder(k1) + (mid + Placeholder(k2)), params[k1] + (mid + params[k2]), params);
  }
}
