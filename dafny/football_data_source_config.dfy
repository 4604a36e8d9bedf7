/** FootballDataSourceConfig: where the football-data.org API key comes
    from. A configured value Spring has already resolved is used as it is;
    an unresolved placeholder `${NAME}` or `${PREFIX:NAME}` is looked up as
    the JVM system property NAME, then the system property
    footballdata.api.key, then the environment variable NAME. Building the
    RestClient fails when no usable key results. The JVM's system
    properties and the process environment are given as maps. */
module SourceConfig {
  import opened Outcomes
  import opened JavaText
  import opened Exceptions

  const CanonicalProperty := "footballdata.api.key"

  const MissingKeyMessage := "Football-Data.org API key missing. Provide via: 1) application property footballdata.api.key, 2) JVM system property -DFOOTBALL_DATA_API_KEY=..., or 3) environment variable FOOTBALL_DATA_API_KEY. Note: if using Gradle, the daemon may cache old env vars; try '--no-daemon' or pass -DFOOTBALL_DATA_API_KEY explicitly."

  /** The text of the pattern `^\$\{([^}]+)}$`: "${", one or more
      characters other than '}', then "}". */
  predicate IsPlaceholder(s: string) {
    |s| >= 4 && s[..2] == "${" && s[|s| - 1] == '}' && forall i :: 2 <= i < |s| - 1 ==> s[i] != '}'
  }

  /** The pattern's group 1 when the whole string matches it. */
  function PlaceholderName(s: string): (r: Option<string>)
    ensures r.Some? <==> IsPlaceholder(s)
    ensures r.Some? ==> |r.value| >= 1 && '}' !in r.value
  {
    if IsPlaceholder(s) then
      var group := s[2..|s| - 1];
      assert forall j :: 0 <= j < |group| ==> group[j] == s[j + 2];
      Some(group)
    else None
  }

  /** Wrapping a name without '}' in "${" and "}" gives a placeholder whose
      group is that name. */
  lemma PlaceholderOfName(name: string)
    requires |name| >= 1 && '}' !in name
    ensures PlaceholderName("${" + name + "}") == Some(name)
  {
    var s := "${" + name + "}";
    assert s[2..|s| - 1] == name;
    assert forall i :: 2 <= i < |s| - 1 ==> s[i] == name[i - 2];
  }

  /** String.indexOf(':'): the first position of a colon, or -1. */
  function IndexOfColon(s: string): (k: int)
    ensures -1 <= k < |s|
    ensures k >= 0 ==> s[k] == ':' && ':' !in s[..k]
    ensures k == -1 <==> ':' !in s
  {
    if s == [] then -1
    else if s[0] == ':' then 0
    else
      var k := IndexOfColon(s[1..]);
      if k == -1 then -1
      else
        assert s[..k + 1] == [s[0]] + s[1..][..k];
        k + 1
  }

  /** The variable a placeholder group names: what follows its first colon,
      or the whole group when it has none. */
  function VariableName(group: string): (v: string)
    ensures ':' !in group ==> v == group
  {
    var colon := IndexOfColon(group);
    if colon >= 0 then group[colon + 1..] else group
  }

  /** A prefix without a colon, such as "ENV", is dropped together with the
      colon after it; the rest is kept whole, colons included. */
  lemma {:induction false} VariableNameAfterPrefix(prefix: string, name: string)
    requires ':' !in prefix
    ensures VariableName(prefix + ":" + name) == name
  {
    var g := prefix + ":" + name;
    assert g[|prefix|] == ':';
    assert g[..|prefix|] == prefix;
    assert g[|prefix| + 1..] == name;
  }

  /** A resolved key and the diagnostic name of where it came from; no
      source is recorded when the configured value is handed back. */
  datatype Resolution = Resolution(key: Option<string>, source: Option<string>)

  /** System.getProperty: an empty name is an IllegalArgumentException. */
  function GetProperty(props: map<string, string>, name: string): Result<Option<string>, Failure> {
    if name == [] then Err(IllegalArgument(Some("key can't be empty")))
    else if name in props then Ok(Some(props[name]))
    else Ok(None)
  }

  /** System.getenv. */
  function GetEnv(env: map<string, string>, name: string): Option<string> {
    if name in env then Some(env[name]) else None
  }

  /** resolveApiKey(configured). */
  function ResolveApiKey(configured: Option<string>, props: map<string, string>, env: map<string, string>): (r: Result<Resolution, Failure>)
    ensures r.Err? ==> r.error.IllegalArgument?
    ensures r.Ok? && r.value.source.None? ==> r.value.key == configured
    ensures r.Ok? && r.value.source.Some? ==> HasTextOrNull(r.value.key)
    ensures HasTextOrNull(configured) && !StartsWith(configured.value, "${") ==>
              r == Ok(Resolution(configured, Some("spring-property")))
    ensures !HasTextOrNull(configured) ==> r == Ok(Resolution(configured, None))
    ensures HasTextOrNull(configured) && StartsWith(configured.value, "${") && !IsPlaceholder(Trim(configured.value)) ==>
              r == Ok(Resolution(configured, None))
    ensures HasTextOrNull(configured) && StartsWith(configured.value, "${") && IsPlaceholder(Trim(configured.value)) ==>
              r == LookUpVariable(configured, VariableName(Trim(configured.value)[2..|Trim(configured.value)| - 1]), props, env)
  {
    if HasTextOrNull(configured) && !StartsWith(configured.value, "${") then
      Ok(Resolution(configured, Some("spring-property")))
    else if !HasTextOrNull(configured) then
      Ok(Resolution(configured, None))
    else
      match PlaceholderName(Trim(configured.value))
      case None => Ok(Resolution(configured, None))
      case Some(group) => LookUpVariable(configured, VariableName(group), props, env)
  }

  /** The fallback lookups for the variable a placeholder names; the
      configured value is handed back when none of them has text. */
  function LookUpVariable(configured: Option<string>, name: string, props: map<string, string>, env: map<string, string>): (r: Result<Resolution, Failure>)
    ensures r.Err? <==> name == []
    ensures r.Ok? && r.value.source.None? ==> r.value.key == configured
    ensures r.Ok? && r.value.source.Some? ==> HasTextOrNull(r.value.key)
  {
    match GetProperty(props, name)
    case Err(e) => Err(e)
    case Ok(fromName) =>
      if HasTextOrNull(fromName) then
        Ok(Resolution(fromName, Some("system-property:" + name)))
      else
        var canonical := GetProperty(props, CanonicalProperty).value;
        if HasTextOrNull(canonical) then
          Ok(Resolution(canonical, Some("system-property:" + CanonicalProperty)))
        else
          var fromEnv := GetEnv(env, name);
          if HasTextOrNull(fromEnv) then Ok(Resolution(fromEnv, Some("env:" + name)))
          else Ok(Resolution(configured, None))
  }

  /** A configured placeholder goes to the fallback lookups with the name
      its group gives. */
  lemma ResolvePlaceholder(group: string, props: map<string, string>, env: map<string, string>)
    requires |group| >= 1 && '}' !in group
    ensures ResolveApiKey(Some("${" + group + "}"), props, env)
            == LookUpVariable(Some("${" + group + "}"), VariableName(group), props, env)
  {
    var s := "${" + group + "}";
    assert s[..2] == "${";
    assert StartsWith(s, "${");
    assert HasTextOrNull(Some(s)) by { assert !IsWhitespace(s[0]); }
    assert IsTrimmed(s);
    TrimOfTrimmed(s);
    PlaceholderOfName(group);
    assert PlaceholderName(Trim(s)) == Some(group);
  }

  /** The pattern is matched against the trimmed value, so a placeholder
      followed by blanks, such as "${NAME} ", is still looked up; the
      value handed back when nothing resolves it keeps its blanks. */
  lemma PaddedPlaceholderLookedUp(group: string, pad: string, props: map<string, string>, env: map<string, string>)
    requires |group| >= 1 && '}' !in group
    requires forall i :: 0 <= i < |pad| ==> IsTrimmable(pad[i])
    ensures ResolveApiKey(Some("${" + group + "}" + pad), props, env)
            == LookUpVariable(Some("${" + group + "}" + pad), VariableName(group), props, env)
  {
    var p := "${" + group + "}";
    var s := p + pad;
    assert s[..2] == p[..2] == "${";
    assert HasTextOrNull(Some(s)) by { assert !IsWhitespace(s[0]); }
    assert IsTrimmed(p);
    TrimDropsTrailing(p, pad);
    PlaceholderOfName(group);
  }

  /** A value that opens with "${" but has no closing brace does not match
      the pattern: it is handed back as it is, with no source. */
  lemma UnclosedPlaceholderKept(rest: string, props: map<string, string>, env: map<string, string>)
    requires '}' !in rest
    ensures ResolveApiKey(Some("${" + rest), props, env) == Ok(Resolution(Some("${" + rest), None))
  {
    var s := "${" + rest;
    assert s[..2] == "${";
    assert HasTextOrNull(Some(s)) by { assert !IsWhitespace(s[0]); }
    var t := Trim(s);
    TrimIsInfix(s);
    var k :| IsInfixAt(t, s, k);
    assert !IsPlaceholder(t);
  }

  /** A placeholder is looked up in a fixed order: the system property it
      names, then footballdata.api.key, then the environment variable it
      names; the first that has text wins. */
  lemma PlaceholderLookupOrder(name: string, props: map<string, string>, env: map<string, string>)
    requires |name| >= 1 && '}' !in name && ':' !in name
    ensures var r := ResolveApiKey(Some("${" + name + "}"), props, env);
            if name in props && HasText(props[name]) then
              r == Ok(Resolution(Some(props[name]), Some("system-property:" + name)))
            else if CanonicalProperty in props && HasText(props[CanonicalProperty]) then
              r == Ok(Resolution(Some(props[CanonicalProperty]), Some("system-property:" + CanonicalProperty)))
            else if name in env && HasText(env[name]) then
              r == Ok(Resolution(Some(env[name]), Some("env:" + name)))
            else
              r == Ok(Resolution(Some("${" + name + "}"), None))
  {
    ResolvePlaceholder(name, props, env);
  }

  /** A placeholder with an empty variable name, such as "${ENV:}", makes
      System.getProperty throw IllegalArgumentException. */
  lemma EmptyVariableRejected(prefix: string, props: map<string, string>, env: map<string, string>)
    requires '}' !in prefix && ':' !in prefix
    ensures ResolveApiKey(Some("${" + prefix + ":}"), props, env).Err?
  {
    assert "${" + prefix + ":}" == "${" + (prefix + ":") + "}";
    ResolvePlaceholder(prefix + ":", props, env);
    VariableNameAfterPrefix(prefix, "");
    assert prefix + ":" + "" == prefix + ":";
  }

  /** The key footballDataSourceRestClient sends as X-Auth-Token, or the
      IllegalStateException that stops the application from starting. */
  function ClientApiKey(configured: Option<string>, props: map<string, string>, env: map<string, string>): (r: Result<string, Failure>)
    ensures r.Ok? ==> HasText(r.value) && !StartsWith(r.value, "${")
    ensures r.Err? ==> r.error.IllegalArgument? || r.error == IllegalState(Some(MissingKeyMessage))
    ensures r.Ok? <==> var res := ResolveApiKey(configured, props, env);
                       res.Ok? && HasTextOrNull(res.value.key) && !StartsWith(res.value.key.value, "${")
    ensures r.Ok? ==> ResolveApiKey(configured, props, env).value.key == Some(r.value)
  {
    match ResolveApiKey(configured, props, env)
    case Err(e) => Err(e)
    case Ok(Resolution(key, _)) =>
      if !HasTextOrNull(key) || StartsWith(key.value, "${") then Err(IllegalState(Some(MissingKeyMessage)))
      else Ok(key.value)
  }

  /** With a placeholder configured and nothing to resolve it, the client
      is not built: the placeholder text is never sent as a key. */
  lemma UnresolvedPlaceholderFails(name: string, props: map<string, string>, env: map<string, string>)
    requires |name| >= 1 && '}' !in name && ':' !in name
    requires name !in props || !HasText(props[name])
    requires CanonicalProperty !in props || !HasText(props[CanonicalProperty])
    requires name !in env || !HasText(env[name])
    ensures ClientApiKey(Some("${" + name + "}"), props, env) == Err(IllegalState(Some(MissingKeyMessage)))
  {
    PlaceholderLookupOrder(name, props, env);
  }

  /** The two characters of the key the startup log shows, "??" for a
      shorter key. */
  function KeyTail(key: string): (t: string)
    ensures |t| == 2
    ensures |key| >= 2 ==> EndsWith(key, t)
    ensures |key| < 2 ==> t == "??"
  {
    if |key| >= 2 then key[|key| - 2..] else "??"
  }
}
