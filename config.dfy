/**
 * The orchestrator's best-effort `.env` loader: each non-blank, non-comment
 * line `KEY=VALUE` sets an environment variable that is not already set.
 * The process environment is a map from name to value; reading files is
 * not modelled, their contents are parameters.
 */
module DotEnv {
  import opened StrUtil

  const GROQ_API_KEY := "GROQ_API_KEY"

  /** `is_valid_env_line`: something other than blanks, not a '#' comment. */
  function IsValidEnvLine(line: string): (r: bool)
    ensures r <==> Trim(line) != [] && !StartsWith(Trim(line), "#")
    ensures r ==> exists i :: 0 <= i < |line| && !IsWhitespace(line[i])
  {
    Trim(line) != [] && Trim(line)[0] != '#'
  }

  /** `extract_value`: surrounding double quotes, then single quotes, are stripped. */
  function ExtractValue(raw: string): (r: string)
    ensures |r| <= |raw|
    ensures r == [] || (r[0] != '\'' && r[|r| - 1] != '\'')
  {
    TrimMatches(TrimMatches(raw, '"'), '\'')
  }

  /** A quoted value loses its quotes; a value with no quote at either end is kept. */
  lemma ExtractValueQuotes(v: string)
    requires v == [] || (v[0] !in "\"'" && v[|v| - 1] !in "\"'")
    ensures ExtractValue(v) == v
    ensures ExtractValue("\"" + v + "\"") == v
    ensures ExtractValue("'" + v + "'") == v
  {
    TrimMatchesUnchanged(v, '"');
    TrimMatchesUnchanged(v, '\'');
    TrimMatchesStrips(v, '"');
    assert "\"" + v + "\"" == ['"'] + v + ['"'];
    var single := ['\''] + v + ['\''];
    assert "'" + v + "'" == single;
    assert single[0] == '\'' && single[|single| - 1] == '\'';
    TrimMatchesUnchanged(single, '"');
    TrimMatchesStrips(v, '\'');
  }

  /**
   * `parse_key_value` on a trimmed line: the text before the first '=' is
   * the key and must not be blank; the rest, trimmed and unquoted, is the
   * value.
   */
  function ParseKeyValue(line: string): (r: Option<(string, string)>)
    ensures r.None? <==> '=' !in line || Trim(SplitOnce(line, '=').value.0) == []
    ensures r.Some? ==> r.value.0 != [] && '=' !in r.value.0
    ensures r.Some? ==> r.value.0 == Trim(SplitOnce(line, '=').value.0)
    ensures r.Some? ==> r.value.1 == ExtractValue(Trim(SplitOnce(line, '=').value.1))
  {
    match SplitOnce(line, '=')
    case None => None
    case Some((k, v)) =>
      var key := Trim(k);
      TrimSubstring(k);
      if key == [] then None else Some((key, ExtractValue(Trim(v))))
  }

  /** The variable a line defines, if any. */
  function Definition(line: string): Option<(string, string)>
  {
    if IsValidEnvLine(line) then ParseKeyValue(Trim(line)) else None
  }

  /** Splitting at the first '=' of `key=rest` gives back `key` and `rest`. */
  lemma SplitAtFirstEquals(key: string, rest: string)
    requires '=' !in key
    ensures SplitOnce(key + ['='] + rest, '=') == Some((key, rest))
  {
    var line := key + ['='] + rest;
    assert forall j :: 0 <= j < |key| ==> line[j] == key[j] && line[j] != '=';
    assert line[|key|] == '=';
    assert IndexOf(line, '=') == Some(|key|);
    assert line[..|key|] == key && line[|key| + 1..] == rest;
  }

  lemma ParseQuotedValue(key: string, v: string, quoted: string)
    requires key != [] && '=' !in key
    requires !IsWhitespace(key[0]) && !IsWhitespace(key[|key| - 1])
    requires v == [] || (v[0] !in "\"'" && v[|v| - 1] !in "\"'")
    requires quoted == "\"" + v + "\""
    ensures ParseKeyValue(key + ['='] + quoted) == Some((key, v))
  {
    SplitAtFirstEquals(key, quoted);
    TrimPlain(key);
    TrimPlain(quoted);
    ExtractValueQuotes(v);
  }

  /** A line `KEY="VALUE"` defines KEY as VALUE. */
  lemma DefinitionOfQuotedLine(key: string, v: string)
    requires key != [] && '=' !in key && key[0] != '#'
    requires !IsWhitespace(key[0]) && !IsWhitespace(key[|key| - 1])
    requires v == [] || (v[0] !in "\"'" && v[|v| - 1] !in "\"'")
    ensures Definition(key + "=\"" + v + "\"") == Some((key, v))
  {
    var quoted := "\"" + v + "\"";
    var line := key + ['='] + quoted;
    assert key + "=\"" + v + "\"" == line;
    assert line[0] == key[0] && line[|line| - 1] == '"';
    TrimPlain(line);
    ParseQuotedValue(key, v, quoted);
  }

  /** `set_env_if_unset`: an existing variable is never overwritten. */
  function SetIfUnset(env: map<string, string>, key: string, value: string): (r: map<string, string>)
    ensures key in env ==> r == env
    ensures key !in env ==> r == env[key := value]
  {
    if key in env then env else env[key := value]
  }

  /** What each line of a file defines, in order. */
  function Defs(lines: seq<string>): (r: seq<Option<(string, string)>>)
    ensures |r| == |lines| && forall i :: 0 <= i < |lines| ==> r[i] == Definition(lines[i])
  {
    seq(|lines|, i requires 0 <= i < |lines| => Definition(lines[i]))
  }

  /** `apply_env_variable`: a line's definition, if any, sets an unset variable. */
  function Apply(env: map<string, string>, d: Option<(string, string)>): map<string, string>
  {
    match d
    case None => env
    case Some((k, v)) => SetIfUnset(env, k, v)
  }

  /** The environment after applying `defs` in order. */
  function ApplyAll(env: map<string, string>, defs: seq<Option<(string, string)>>): map<string, string>
    decreases |defs|
  {
    if defs == [] then env else ApplyAll(Apply(env, defs[0]), defs[1..])
  }

  /** The value the first definition of `key` gives it. */
  function FirstOf(defs: seq<Option<(string, string)>>, key: string): Option<string>
    decreases |defs|
  {
    if defs == [] then None
    else match defs[0]
      case Some((k, v)) => if k == key then Some(v) else FirstOf(defs[1..], key)
      case None => FirstOf(defs[1..], key)
  }

  /** Entry `i` defines `key` as `v`, and no earlier entry defines `key`. */
  predicate FirstDefinedAt(defs: seq<Option<(string, string)>>, i: nat, key: string, v: string)
  {
    i < |defs| && defs[i] == Some((key, v))
    && forall j :: 0 <= j < i ==> defs[j].None? || defs[j].value.0 != key
  }

  /** The first definition is the earliest entry that defines the key; without one there is none. */
  lemma {:induction false} FirstOfIsEarliest(defs: seq<Option<(string, string)>>, key: string)
    ensures FirstOf(defs, key).Some? ==> exists i: nat :: FirstDefinedAt(defs, i, key, FirstOf(defs, key).value)
    ensures FirstOf(defs, key).None? ==> forall i :: 0 <= i < |defs| ==> defs[i].None? || defs[i].value.0 != key
    decreases |defs|
  {
    if defs != [] {
      FirstOfIsEarliest(defs[1..], key);
      var d := defs[0];
      if d.None? || d.value.0 != key {
        var r := FirstOf(defs[1..], key);
        assert FirstOf(defs, key) == r;
        assert forall i :: 0 <= i < |defs[1..]| ==> defs[1..][i] == defs[i + 1];
        if r.Some? {
          var i: nat :| FirstDefinedAt(defs[1..], i, key, r.value);
          assert FirstDefinedAt(defs, i + 1, key, r.value);
        }
      } else {
        assert FirstDefinedAt(defs, 0, key, d.value.1);
      }
    }
  }

  /**
   * Loading keeps every variable already set, and an unset variable takes
   * the value of the first line that defines it; nothing else is added.
   */
  lemma {:induction false} ApplyAllFirstWins(env: map<string, string>, defs: seq<Option<(string, string)>>, key: string)
    ensures key in env ==> key in ApplyAll(env, defs) && ApplyAll(env, defs)[key] == env[key]
    ensures key !in env ==> (key in ApplyAll(env, defs) <==> FirstOf(defs, key).Some?)
    ensures key !in env && FirstOf(defs, key).Some? ==> ApplyAll(env, defs)[key] == FirstOf(defs, key).value
    decreases |defs|
  {
    if defs != [] {
      ApplyAllFirstWins(Apply(env, defs[0]), defs[1..], key);
    }
  }

  /** The process environment. */
  class Environment {
    var vars: map<string, string>

    constructor (initial: map<string, string>)
      ensures vars == initial
    {
      vars := initial;
    }

    method SetEnvIfUnset(key: string, value: string)
      modifies this
      ensures vars == SetIfUnset(old(vars), key, value)
    {
      if key !in vars {
        vars := vars[key := value];
      }
    }

    /** `parse_env_file`: every line of the file, in order. */
    method ParseEnvFile(content: string)
      modifies this
      ensures vars == ApplyAll(old(vars), Defs(Lines(content)))
    {
      var lines := Lines(content);
      ghost var defs := Defs(lines);
      var i := 0;
      while i < |lines|
        invariant 0 <= i <= |lines|
        invariant ApplyAll(vars, defs[i..]) == ApplyAll(old(vars), defs)
      {
        assert defs[i..][1..] == defs[i + 1..];
        assert defs[i] == Definition(lines[i]);
        if IsValidEnvLine(lines[i]) {
          ApplyEnvVariable(lines[i]);
        }
        i := i + 1;
      }
    }

    /** `apply_env_variable`: a line that parses as `key=value` sets an unset variable. */
    method ApplyEnvVariable(line: string)
      modifies this
      ensures vars == Apply(old(vars), ParseKeyValue(Trim(line)))
    {
      match ParseKeyValue(Trim(line))
      case None =>
      case Some((k, v)) => SetEnvIfUnset(k, v);
    }

    /** `load_env_file_if_present`: an unreadable or missing file changes nothing. */
    method LoadEnvFileIfPresent(file: Option<string>)
      modifies this
      ensures file.None? ==> vars == old(vars)
      ensures file.Some? ==> vars == ApplyAll(old(vars), Defs(Lines(file.value)))
      ensures vars == Loaded(old(vars), file)
    {
      if file.Some? {
        ParseEnvFile(file.value);
      }
    }

    /** `load_dotenv`: the working directory's file, then its parent's, then its grandparent's. */
    method LoadDotenv(here: Option<string>, parent: Option<string>, grandparent: Option<string>)
      modifies this
      ensures vars == Loaded(Loaded(Loaded(old(vars), here), parent), grandparent)
      ensures forall k :: k in old(vars) ==> k in vars && vars[k] == old(vars)[k]
    {
      LoadEnvFileIfPresent(here);
      KeepsSet(old(vars), here);
      ghost var v1 := vars;
      LoadEnvFileIfPresent(parent);
      KeepsSet(v1, parent);
      ghost var v2 := vars;
      LoadEnvFileIfPresent(grandparent);
      KeepsSet(v2, grandparent);
    }

    /**
     * `load_api_key`: the variable already set wins; otherwise the `.env`
     * file is loaded and the variable read again.
     */
    method LoadApiKey(file: Option<string>) returns (r: Result<string>)
      modifies this
      ensures GROQ_API_KEY in old(vars) ==> r == Ok(old(vars)[GROQ_API_KEY]) && vars == old(vars)
      ensures GROQ_API_KEY !in old(vars) ==> vars == Loaded(old(vars), file)
      ensures GROQ_API_KEY !in old(vars) && file.Some? && FirstOf(Defs(Lines(file.value)), GROQ_API_KEY).Some? ==>
        r == Ok(FirstOf(Defs(Lines(file.value)), GROQ_API_KEY).value)
      ensures GROQ_API_KEY !in old(vars) && (file.None? || FirstOf(Defs(Lines(file.value)), GROQ_API_KEY).None?) ==>
        r == Err("GROQ_API_KEY not found. Please set it as an environment variable")
    {
      if GROQ_API_KEY in vars {
        return Ok(vars[GROQ_API_KEY]);
      }
      LoadEnvFileIfPresent(file);
      if file.Some? {
        ApplyAllFirstWins(old(vars), Defs(Lines(file.value)), GROQ_API_KEY);
      }
      if GROQ_API_KEY in vars {
        r := Ok(vars[GROQ_API_KEY]);
      } else {
        r := Err("GROQ_API_KEY not found. Please set it as an environment variable");
      }
    }
  }

  /** The environment after loading a file's text, or nothing when there is no file. */
  function Loaded(env: map<string, string>, file: Option<string>): map<string, string>
  {
    if file.Some? then ApplyAll(env, Defs(Lines(file.value))) else env
  }

  /** Loading a file (or none) keeps every variable already set. */
  lemma KeepsSet(env: map<string, string>, file: Option<string>)
    ensures forall k :: k in env ==> k in Loaded(env, file) && Loaded(env, file)[k] == env[k]
  {
    if file.Some? {
      forall k | k in env
        ensures k in ApplyAll(env, Defs(Lines(file.value))) && ApplyAll(env, Defs(Lines(file.value)))[k] == env[k]
      {
        ApplyAllFirstWins(env, Defs(Lines(file.value)), k);
      }
    }
  }
}
