/**
 * The end-to-end test driver's helpers: reading one key from the text of
 * a `.env` file, and turning the relay's websocket URL into its health
 * URL and its plain host.
 */
module Xtask {
  import opened StrUtil
  import DotEnv

  /** The value `line` gives `key` under `get_env`'s rules, if it names `key`. */
  function LineValue(line: string, key: string): Option<string>
  {
    var t := Trim(line);
    if t == [] || t[0] == '#' then None
    else match SplitOnce(t, '=')
      case None => None
      case Some((k, v)) => if Trim(k) == key then Some(DotEnv.ExtractValue(Trim(v))) else None
  }

  /** The value of the first line naming `key`. */
  function FirstValue(lines: seq<string>, key: string): Option<string>
    decreases |lines|
  {
    if lines == [] then None
    else if LineValue(lines[0], key).Some? then LineValue(lines[0], key)
    else FirstValue(lines[1..], key)
  }

  /** `get_env`: the first non-blank, non-comment line whose key is `key`; none is an error. */
  method GetEnv(env: string, key: string) returns (r: Result<string>)
    ensures FirstValue(Lines(env), key).Some? ==> r == Ok(FirstValue(Lines(env), key).value)
    ensures FirstValue(Lines(env), key).None? ==> r == Err(key + " not found in .env")
  {
    var lines := Lines(env);
    var i := 0;
    while i < |lines|
      invariant 0 <= i <= |lines|
      invariant FirstValue(lines[i..], key) == FirstValue(lines, key)
    {
      assert lines[i..][1..] == lines[i + 1..];
      var t := Trim(lines[i]);
      if t != [] && t[0] != '#' {
        match SplitOnce(t, '=')
        case None =>
        case Some((k, v)) =>
          if Trim(k) == key {
            return Ok(DotEnv.ExtractValue(Trim(v)));
          }
      }
      i := i + 1;
    }
    return Err(key + " not found in .env");
  }

  /** For a line, `get_env` and the orchestrator's loader read the same value for a non-empty key. */
  lemma LineValueIsDefinition(line: string, key: string)
    requires key != []
    ensures LineValue(line, key) ==
      (if DotEnv.Definition(line).Some? && DotEnv.Definition(line).value.0 == key
       then Some(DotEnv.Definition(line).value.1) else None)
  {
  }

  /**
   * `get_env` finds for a non-empty key exactly the value the orchestrator's
   * loader would set from the same file.
   */
  lemma {:induction false} GetEnvAgreesWithLoader(lines: seq<string>, key: string)
    requires key != []
    ensures FirstValue(lines, key) == DotEnv.FirstOf(DotEnv.Defs(lines), key)
    decreases |lines|
  {
    if lines != [] {
      var defs := DotEnv.Defs(lines);
      DefsTail(lines);
      LineValueIsDefinition(lines[0], key);
      GetEnvAgreesWithLoader(lines[1..], key);
      FirstOfHead(defs, key);
    }
  }

  /** The definitions of all but the first line are all but the first definition. */
  lemma DefsTail(lines: seq<string>)
    requires lines != []
    ensures DotEnv.Defs(lines)[0] == DotEnv.Definition(lines[0])
    ensures DotEnv.Defs(lines)[1..] == DotEnv.Defs(lines[1..])
  {
    var a := DotEnv.Defs(lines)[1..];
    var b := DotEnv.Defs(lines[1..]);
    forall i | 0 <= i < |a|
      ensures a[i] == b[i]
    {
      assert lines[1..][i] == lines[i + 1];
    }
  }

  /** The first definition of `key` is the head's, or else the tail's. */
  lemma FirstOfHead(defs: seq<Option<(string, string)>>, key: string)
    requires defs != []
    ensures DotEnv.FirstOf(defs, key) ==
      if defs[0].Some? && defs[0].value.0 == key then Some(defs[0].value.1) else DotEnv.FirstOf(defs[1..], key)
  {
  }

  /** A value with no space or quote at either end, which both readers keep as it is. */
  predicate PlainValue(v: string)
  {
    v != [] && !IsWhitespace(v[0]) && !IsWhitespace(v[|v| - 1]) && v[0] !in "\"'" && v[|v| - 1] !in "\"'"
  }

  /** A blank key matches a line such as "=x" under `get_env`, which reads the rest as its value. */
  lemma BlankKeyMatchesBareValue(line: string)
    requires line != [] && line[0] == '=' && PlainValue(line[1..])
    ensures LineValue(line, "") == Some(line[1..])
  {
    var v := line[1..];
    LeadingEqualsLine(line);
    TrimPlain([]);
    PlainValueKept(v);
    LineValueOfSplit(line, "", [], v);
  }

  /** Both readers keep a plain value as it is. */
  lemma PlainValueKept(v: string)
    requires PlainValue(v)
    ensures DotEnv.ExtractValue(Trim(v)) == v
  {
    TrimPlain(v);
    DotEnv.ExtractValueQuotes(v);
  }

  /** The value a trimmed, uncommented line gives a key that its split names. */
  lemma LineValueOfSplit(line: string, key: string, k: string, v: string)
    requires Trim(line) == line && line != [] && line[0] != '#'
    requires SplitOnce(line, '=') == Some((k, v)) && Trim(k) == key
    ensures LineValue(line, key) == Some(DotEnv.ExtractValue(Trim(v)))
  {
  }

  /** A line "=v" is its own trim and splits into a blank key and `v`. */
  lemma LeadingEqualsLine(line: string)
    requires line != [] && line[0] == '=' && PlainValue(line[1..])
    ensures Trim(line) == line
    ensures SplitOnce(line, '=') == Some(([], line[1..]))
  {
    assert Trim(line) == line by {
      TrimPlain(line);
    }
    assert IndexOf(line, '=') == Some(0);
    assert line[..0] == [];
  }

  /** The orchestrator's loader ignores the same line, its key being blank. */
  lemma LoaderIgnoresBareValue(line: string)
    requires line != [] && line[0] == '=' && PlainValue(line[1..])
    ensures DotEnv.Definition(line).None?
  {
    LeadingEqualsLine(line);
    TrimPlain([]);
    BlankKeyUndefined(line, line[1..]);
  }

  /** A trimmed, uncommented line whose key is blank defines nothing for the loader. */
  lemma BlankKeyUndefined(line: string, v: string)
    requires Trim(line) == line && line != [] && line[0] != '#'
    requires SplitOnce(line, '=') == Some(([], v)) && Trim([]) == []
    ensures DotEnv.Definition(line).None?
  {
  }

  // ---------------------------------------------------------------------------
  // Relay URLs
  // ---------------------------------------------------------------------------

  /** `ws_to_health`: ws:// and wss:// become http://, a trailing "/ws" goes, "/health" is appended. */
  function WsToHealth(ws: string): (r: string)
    ensures EndsWith(r, "/health") && !EndsWith(r[..|r| - 7], "/ws")
    ensures !Contains(ws, "wss://") && !Contains(ws, "ws://") ==> r == TrimEndMatches(ws, "/ws") + "/health"
  {
    var host := TrimEndMatches(Replace(Replace(ws, "wss://", "http://"), "ws://", "http://"), "/ws");
    assert (host + "/health")[..|host|] == host && (host + "/health")[|host|..] == "/health";
    host + "/health"
  }

  /** `ws_to_http_host`: the scheme and a trailing "/ws" are removed. */
  function WsToHttpHost(ws: string): (r: string)
    ensures !EndsWith(r, "/ws")
    ensures !Contains(ws, "wss://") && !Contains(ws, "ws://") ==> r == TrimEndMatches(ws, "/ws")
  {
    TrimEndMatches(Replace(Replace(ws, "wss://", ""), "ws://", ""), "/ws")
  }

  /** A pattern with "//" at `a` can only match where the text has "//" at `i + a`. */
  lemma MatchNeedsSlashes(x: string, p: string, a: nat, i: int)
    requires a + 1 < |p| && p[a] == '/' && p[a + 1] == '/'
    ensures MatchAt(x, p, i) ==> 0 <= i && i + a + 1 < |x| && x[i + a] == '/' && x[i + a + 1] == '/'
  {
    if 0 <= i && i + |p| <= |x| {
      assert x[i..i + |p|][a] == x[i + a] && x[i..i + |p|][a + 1] == x[i + a + 1];
    }
  }

  /** Every "//" in `x` starts at `k` (or nowhere, when `k` is negative). */
  predicate DoubleSlashOnlyAt(x: string, k: int)
  {
    forall j :: 0 <= j && j + 1 < |x| && x[j] == '/' && x[j + 1] == '/' ==> j == k
  }

  /** With "//" only at `k`, a pattern with "//" at `a` can match only at `k - a`. */
  lemma MatchOnlyAt(x: string, p: string, a: nat, k: int)
    requires a + 1 < |p| && p[a] == '/' && p[a + 1] == '/'
    requires DoubleSlashOnlyAt(x, k)
    requires !MatchAt(x, p, k - a)
    ensures !Contains(x, p)
  {
    forall i | 0 <= i <= |x|
      ensures !MatchAt(x, p, i)
    {
      MatchNeedsSlashes(x, p, a, i);
    }
  }

  /** Around a host free of '/', the only "//" is the scheme's. */
  lemma SlashesAround(scheme: string, host: string, tail: string, k: int)
    requires '/' !in host
    requires DoubleSlashOnlyAt(scheme, k) && (host != [] || |scheme| == 0 || scheme[|scheme| - 1] != '/')
    requires tail == "/ws" || tail == ""
    ensures DoubleSlashOnlyAt(scheme + host + tail, k)
  {
    var x := scheme + host + tail;
    assert forall j :: |scheme| <= j < |scheme| + |host| ==> x[j] == host[j - |scheme|];
    assert forall j :: 0 <= j < |scheme| ==> x[j] == scheme[j];
    assert tail != [] ==> x[|scheme| + |host|] == '/' && x[|scheme| + |host| + 1] == 'w';
  }

  /** Replacing a pattern that occurs only at the start. */
  lemma ReplaceAtStartOnly(s: string, from: string, to: string)
    requires |from| > 0 && |from| <= |s| && s[..|from|] == from && !Contains(s[|from|..], from)
    ensures Replace(s, from, to) == to + s[|from|..]
  {
  }

  /** No "/ws" ends a host free of '/' other than "ws", bare or after "http://". */
  lemma NotEndingInWs(prefix: string, host: string)
    requires prefix == "" || prefix == "http://"
    requires '/' !in host && host != [] && host != "ws"
    ensures !EndsWith(prefix + host, "/ws")
  {
    var t := prefix + host;
    if |t| >= 3 {
      if |host| >= 3 {
        assert t[|t| - 3] == host[|host| - 3] && host[|host| - 3] in host;
        assert t[|t| - 3..][0] == t[|t| - 3];
      } else if |host| == 2 {
        assert t[|t| - 3..][1..] == host;
      } else {
        assert t[|t| - 3..][1] == t[|t| - 2] == prefix[5];
      }
    }
  }

  /**
   * One trailing "/ws" after the host is stripped and no more. A host named
   * "ws" would lose more: `trim_end_matches` strips every trailing copy.
   */
  lemma TrimWsSuffix(prefix: string, host: string)
    requires prefix == "" || prefix == "http://"
    requires '/' !in host && host != [] && host != "ws"
    ensures TrimEndMatches(prefix + host + "/ws", "/ws") == prefix + host
  {
    var t := prefix + host;
    var s := t + "/ws";
    assert s == prefix + host + "/ws";
    assert EndsWith(s, "/ws") && s[..|s| - 3] == t;
    NotEndingInWs(prefix, host);
  }

  /** After a host free of '/' and its "/ws", no scheme is left to replace. */
  lemma NoSchemeAfterHost(host: string)
    requires '/' !in host && host != []
    ensures !Contains(host + "/ws", "ws://") && !Contains(host + "/ws", "wss://")
  {
    SlashesAround("", host, "/ws", -1);
    assert "" + host + "/ws" == host + "/ws";
    MatchOnlyAt(host + "/ws", "ws://", 3, -1);
    MatchOnlyAt(host + "/ws", "wss://", 4, -1);
  }

  /** "ws://host/ws" holds no "wss://". */
  lemma NoSecureScheme(host: string)
    requires '/' !in host && host != []
    ensures !Contains("ws://" + host + "/ws", "wss://")
  {
    SlashesAround("ws://", host, "/ws", 3);
    MatchOnlyAt("ws://" + host + "/ws", "wss://", 4, 3);
  }

  /** "http://host/ws" holds no "ws://". */
  lemma NoWsInHttp(host: string)
    requires '/' !in host && host != []
    ensures !Contains("http://" + host + "/ws", "ws://")
  {
    var http := "http://" + host + "/ws";
    SlashesAround("http://", host, "/ws", 5);
    assert http[2] == 't';
    MatchOnlyAt(http, "ws://", 3, 5);
  }

  /** The relay's "ws://host/ws" gives "http://host/health" and "host". */
  lemma PlainRelayUrl(host: string)
    requires '/' !in host && host != [] && host != "ws"
    ensures WsToHealth("ws://" + host + "/ws") == "http://" + host + "/health"
    ensures WsToHttpHost("ws://" + host + "/ws") == host
  {
    var ws := "ws://" + host + "/ws";
    var rest := host + "/ws";
    assert ws == "ws://" + rest && ws[5..] == rest;
    NoSecureScheme(host);
    NoSchemeAfterHost(host);
    ReplaceAtStartOnly(ws, "ws://", "http://");
    ReplaceAtStartOnly(ws, "ws://", "");
    assert "http://" + rest == "http://" + host + "/ws";
    assert "" + rest == "" + host + "/ws";
    TrimWsSuffix("http://", host);
    TrimWsSuffix("", host);
  }

  /** The secure "wss://host/ws" gives the same health URL as the plain one. */
  lemma SecureRelayHealth(host: string)
    requires '/' !in host && host != [] && host != "ws"
    ensures WsToHealth("wss://" + host + "/ws") == "http://" + host + "/health"
  {
    var ws := "wss://" + host + "/ws";
    var rest := host + "/ws";
    assert ws == "wss://" + rest && ws[6..] == rest;
    NoSchemeAfterHost(host);
    ReplaceAtStartOnly(ws, "wss://", "http://");
    var http := "http://" + host + "/ws";
    assert "http://" + rest == http;
    NoWsInHttp(host);
    assert Replace(http, "ws://", "http://") == http;
    TrimWsSuffix("http://", host);
  }

  /** The secure "wss://host/ws" gives the same host as the plain one. */
  lemma SecureRelayHost(host: string)
    requires '/' !in host && host != [] && host != "ws"
    ensures WsToHttpHost("wss://" + host + "/ws") == host
  {
    var ws := "wss://" + host + "/ws";
    var rest := host + "/ws";
    assert ws == "wss://" + rest && ws[6..] == rest;
    NoSchemeAfterHost(host);
    ReplaceAtStartOnly(ws, "wss://", "");
    assert "" + rest == rest;
    assert Replace(rest, "ws://", "") == rest;
    assert "" + host + "/ws" == rest;
    TrimWsSuffix("", host);
  }
}
