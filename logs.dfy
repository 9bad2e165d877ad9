/**
 * The executor log monitor (crates/control_center/src/logs.rs): mapping
 * JSONL log entries to typed log lines with a short content string, and
 * the bookkeeping that tracks the newest log file and how far it has been
 * read. Reading directories and files, JSON parsing and serialisation, the
 * clock, the channel and the file watcher are parameters or left out.
 */
module ControlCenterLogs {
  import opened StrUtil
  import opened JsonValue

  /** The default directory, relative to the workspace. */
  const CLAUDE_LOGS_DIR: string := "artifacts/executor_logs"

  datatype LogType = UserMessage | AssistantMessage | ToolCall | ToolResult | Status | Error | Unknown

  /** A log line as sent on; the timestamp is the clock reading when it was parsed. */
  datatype ParsedLogLine = ParsedLogLine(timestamp: nat, entryType: LogType, content: string, raw: string)

  /** One JSONL entry, as serde reads it. */
  datatype LogEntry = LogEntry(
    entryType: string,
    timestamp: Option<string>,
    content: Option<Value>,
    tool: Option<string>,
    role: Option<string>,
    message: Option<string>)

  // ---------------------------------------------------------------------------
  // Entry types
  // ---------------------------------------------------------------------------

  /** The type strings that name a known log type. */
  const KNOWN_TYPES: seq<string> := [
    "user", "user_message", "assistant", "assistant_message", "tool_call", "tool_use",
    "tool_result", "tool_response", "status", "error"]

  /** `log_type_from_entry`: every string has a type, Unknown for the unlisted ones. */
  function LogTypeOf(entryType: string): (t: LogType)
    ensures t == Unknown <==> entryType !in KNOWN_TYPES
  {
    if entryType == "user" || entryType == "user_message" then UserMessage
    else if entryType == "assistant" || entryType == "assistant_message" then AssistantMessage
    else if entryType == "tool_call" || entryType == "tool_use" then ToolCall
    else if entryType == "tool_result" || entryType == "tool_response" then ToolResult
    else if entryType == "status" then Status
    else if entryType == "error" then Error
    else Unknown
  }

  /** The names each known type is written with. */
  function TypeNames(t: LogType): (names: seq<string>)
    ensures forall k :: 0 <= k < |names| ==> names[k] in KNOWN_TYPES
  {
    match t
    case UserMessage => ["user", "user_message"]
    case AssistantMessage => ["assistant", "assistant_message"]
    case ToolCall => ["tool_call", "tool_use"]
    case ToolResult => ["tool_result", "tool_response"]
    case Status => ["status"]
    case Error => ["error"]
    case Unknown => []
  }

  /** Each known type is read back from each of its names, and only from those. */
  lemma LogTypeNames(t: LogType, name: string)
    ensures LogTypeOf(name) == t && t != Unknown <==> name in TypeNames(t)
  {
  }

  // ---------------------------------------------------------------------------
  // Content
  // ---------------------------------------------------------------------------

  /**
   * Rust's `if s.len() > n { format!("{}...", &s[..n]) } else { s }` as
   * written: None where the byte slice panics.
   */
  function ShortenAsWritten(s: string, n: nat): (r: Option<string>)
    ensures r.Some? && ByteLen(s) <= n ==> r.value == s
  {
    if ByteLen(s) > n then
      match BytePrefix(s, n)
      case Some(p) => Some(p + "...")
      case None => None
    else Some(s)
  }

  /**
   * A cut one byte into a multi-byte character panics: with a 49-byte ASCII
   * head, a Bash command shortened at 50 bytes.
   */
  lemma ShortenSplitsCharacter(head: string, c: char, tail: string)
    requires IsAscii(head) && Utf8Width(c) >= 2
    ensures ShortenAsWritten(head + [c] + tail, |head| + 1).None?
  {
    ByteSliceInsideCharacter(head, c, tail);
  }

  /** The same shortening cut at the last character boundary within `n` bytes. */
  function Shorten(s: string, n: nat): (r: string)
    ensures ByteLen(s) <= n ==> r == s
    ensures ByteLen(s) > n ==> exists p :: r == p + "..." && p == TruncateBytes(s, n)
  {
    if ByteLen(s) > n then TruncateBytes(s, n) + "..." else s
  }

  /** Where the slice does not panic, both shortenings agree; the result is at most `n + 3` bytes. */
  lemma ShortenAgrees(s: string, n: nat)
    ensures ShortenAsWritten(s, n).Some? ==> ShortenAsWritten(s, n).value == Shorten(s, n)
    ensures ByteLen(Shorten(s, n)) <= n + 3
  {
    if ByteLen(s) > n {
      if BytePrefix(s, n).Some? {
        BytePrefixAgrees(s, n);
      }
      var dots := "...";
      ByteLenAscii(dots);
      ByteLenAppend(TruncateBytes(s, n), dots);
    }
  }

  /** A shell call's text: "$ " and the command, cut to 50 bytes plus "...". */
  predicate IsBashCall(toolName: string, input: Value)
  {
    input.Obj? && !Contains(toolName, "Write") && !Contains(toolName, "Edit") && !Contains(toolName, "Read")
    && Contains(toolName, "Bash") && AsStr(Get(input, "command")).Some?
  }

  /** "$ " and the command shortened to 50 bytes is at most 55 bytes, "$ " first. */
  lemma CommandTextBounded(cmd: string)
    ensures StartsWith("$ " + Shorten(cmd, 50), "$ ") && ByteLen("$ " + Shorten(cmd, 50)) <= 55
  {
    StartsWithConcat("$ ", Shorten(cmd, 50));
    ShortenAgrees(cmd, 50);
    ByteLenAscii("$ ");
    ByteLenAppend("$ ", Shorten(cmd, 50));
  }

  /** The short text for a tool call: the file of a write, edit or read, the command of a shell call. */
  function ToolText(toolName: string, toolInput: Option<Value>): (r: string)
    ensures toolInput.None? || !toolInput.value.Obj? ==> r == toolName
    ensures toolInput.Some? && IsBashCall(toolName, toolInput.value) ==>
      StartsWith(r, "$ ") && ByteLen(r) <= 55
  {
    if toolInput.Some? && toolInput.value.Obj? then
      var input := toolInput.value;
      if Contains(toolName, "Write") || Contains(toolName, "Edit") then
        match AsStr(Get(input, "file_path"))
        case Some(file) => toolName + ": " + file
        case None => toolName
      else if Contains(toolName, "Read") then
        match AsStr(Get(input, "file_path"))
        case Some(file) => "Reading: " + file
        case None => toolName
      else if Contains(toolName, "Bash") then
        match AsStr(Get(input, "command"))
        case Some(cmd) => CommandTextBounded(cmd); "$ " + Shorten(cmd, 50)
        case None => toolName
      else toolName
    else toolName
  }

  /** The first line of a tool's output, with "..." when more lines follow. */
  function OutputText(text: string): (r: Option<string>)
    ensures r.None? <==> text == []
  {
    var lines := Lines(text);
    if |lines| > 1 then Some(lines[0] + "...")
    else if |lines| == 1 then Some(lines[0])
    else None
  }

  /** The text an object content yields, tried field by field; None falls through. */
  function ObjectText(obj: Value): (r: Option<string>)
    ensures AsStr(Get(obj, "text")).Some? ==> r == AsStr(Get(obj, "text"))
  {
    var text := AsStr(Get(obj, "text"));
    var message := AsStr(Get(obj, "message"));
    var toolName := AsStr(Get(obj, "tool_name"));
    var output := Get(obj, "output");
    var fromOutput := if output.Some? && output.value.Str? then OutputText(output.value.s) else None;
    if text.Some? then text
    else if message.Some? then message
    else if toolName.Some? then Some(ToolText(toolName.value, Get(obj, "tool_input")))
    else if fromOutput.Some? then fromOutput
    else AsStr(Get(obj, "status"))
  }

  /** Content that yields no text of its own and is shown as compact JSON. */
  predicate FallsBackToCompact(content: Value)
  {
    match content
    case Str(_) => false
    case Obj(_) => ObjectText(content).None?
    case Arr(items) => items == []
    case _ => true
  }

  /**
   * The text of a content value: a string verbatim, an object by its
   * fields, a non-empty array by its first string or its size, and
   * anything else as compact JSON (`toJson` is serde's serialiser), cut to
   * 100 bytes plus "...".
   */
  function ContentText(content: Value, toJson: Value -> string): (r: string)
    ensures content.Str? ==> r == content.s
    ensures content.Obj? && ObjectText(content).Some? ==> r == ObjectText(content).value
    ensures content.Arr? && content.items != [] && content.items[0].Str? ==> r == content.items[0].s
    ensures FallsBackToCompact(content) ==> ByteLen(r) <= 103 && (ByteLen(toJson(content)) <= 100 ==> r == toJson(content))
  {
    ShortenAgrees(toJson(content), 100);
    var compact := Shorten(toJson(content), 100);
    match content
    case Str(s) => s
    case Obj(_) =>
      (match ObjectText(content)
       case Some(t) => t
       case None => compact)
    case Arr(items) =>
      if items == [] then compact
      else if items[0].Str? then items[0].s
      else "[" + NatToString(|items|) + " items]"
    case _ => compact
  }

  /**
   * `extract_content`: the message field wins, then the content; with
   * neither, a tool gives "Tool: X" and anything else "[type]".
   */
  function ExtractContent(entry: LogEntry, toJson: Value -> string): (r: string)
    ensures entry.message.Some? ==> r == entry.message.value
    ensures entry.message.None? && entry.content.Some? ==> r == ContentText(entry.content.value, toJson)
    ensures entry.message.None? && entry.content.None? && entry.tool.Some? ==> r == "Tool: " + entry.tool.value
    ensures entry.message.None? && entry.content.None? && entry.tool.None? ==> r == "[" + entry.entryType + "]"
  {
    if entry.message.Some? then entry.message.value
    else if entry.content.Some? then ContentText(entry.content.value, toJson)
    else if entry.tool.Some? then "Tool: " + entry.tool.value
    else "[" + entry.entryType + "]"
  }

  /**
   * The content text as written: None where the cut of the compact JSON
   * at byte 100 falls inside a character and the slice panics.
   */
  function ContentTextAsWritten(content: Value, toJson: Value -> string): (r: Option<string>)
    ensures r.None? <==> FallsBackToCompact(content) && ShortenAsWritten(toJson(content), 100).None?
    ensures r.Some? ==> r.value == ContentText(content, toJson)
  {
    ShortenAgrees(toJson(content), 100);
    var compact := ShortenAsWritten(toJson(content), 100);
    match content
    case Str(s) => Some(s)
    case Obj(_) =>
      (match ObjectText(content)
       case Some(t) => Some(t)
       case None => compact)
    case Arr(items) =>
      if items == [] then compact
      else if items[0].Str? then Some(items[0].s)
      else Some("[" + NatToString(|items|) + " items]")
    case _ => compact
  }

  /**
   * Compact JSON whose 100th byte ends one byte into a multi-byte
   * character, after 99 ASCII bytes, makes the source's cut panic.
   */
  lemma CompactCutPanics(content: Value, toJson: Value -> string, head: string, c: char, tail: string)
    requires FallsBackToCompact(content)
    requires toJson(content) == head + [c] + tail
    requires IsAscii(head) && |head| == 99 && Utf8Width(c) >= 2
    ensures ContentTextAsWritten(content, toJson).None?
  {
    ShortenSplitsCharacter(head, c, tail);
  }

  // ---------------------------------------------------------------------------
  // Paths
  // ---------------------------------------------------------------------------

  /** Rust `Path::extension` of a file name: the text after the last '.', unless that dot leads the name. */
  function Extension(name: string): (r: Option<string>)
    ensures r.Some? ==> '.' !in r.value && EndsWith(name, "." + r.value) && |r.value| + 1 < |name|
  {
    if name == ".." then None
    else match LastIndexOf(name, '.')
      case None => None
      case Some(k) =>
        if k == 0 then None
        else
          assert name[|name| - |name[k + 1..]| - 1..] == "." + name[k + 1..];
          Some(name[k + 1..])
  }

  /** Rust `PathBuf::push`: an absolute path replaces, a relative one is joined with '/'. */
  function PathPush(base: string, p: string): (r: string)
    ensures StartsWith(p, "/") ==> r == p
    ensures !StartsWith(p, "/") ==> EndsWith(r, p) && StartsWith(r, base)
  {
    if StartsWith(p, "/") then p
    else if base == [] || base[|base| - 1] == '/' then base + p
    else base + "/" + p
  }

  /** `expand_tilde`: "~/" followed by a path becomes that path under the home directory. */
  function ExpandTilde(path: string, home: Option<string>): (r: string)
    ensures !StartsWith(path, "~/") || home.None? ==> r == path
    ensures StartsWith(path, "~/") && home.Some? ==> r == PathPush(home.value, path[2..])
  {
    if StartsWith(path, "~/") && home.Some? then PathPush(home.value, path[2..]) else path
  }

  /** The default directory is not rewritten. */
  lemma DefaultDirUnexpanded(home: Option<string>)
    ensures ExpandTilde(CLAUDE_LOGS_DIR, home) == CLAUDE_LOGS_DIR
  {
    assert CLAUDE_LOGS_DIR[0] == 'a';
  }

  // ---------------------------------------------------------------------------
  // The newest log file
  // ---------------------------------------------------------------------------

  /** A directory entry: its path, its file name and its modification time when readable. */
  datatype DirEntry = DirEntry(path: string, name: string, modified: Option<nat>)

  predicate IsCandidate(e: DirEntry)
  {
    Extension(e.name) == Some("jsonl") && e.modified.Some?
  }

  /** The newest JSONL file among `entries`, the first one on a tie, with its time. */
  function Latest(entries: seq<DirEntry>): (r: Option<(string, nat)>)
    decreases |entries|
  {
    if entries == [] then None
    else
      var acc := Latest(entries[..|entries| - 1]);
      var e := entries[|entries| - 1];
      if IsCandidate(e) && (acc.None? || e.modified.value > acc.value.1) then Some((e.path, e.modified.value))
      else acc
  }

  predicate NoCandidate(entries: seq<DirEntry>)
  {
    forall i :: 0 <= i < |entries| ==> !IsCandidate(entries[i])
  }

  /** No JSONL file of the listing is newer than `t`. */
  predicate NoneNewer(entries: seq<DirEntry>, t: nat)
  {
    forall j :: 0 <= j < |entries| && IsCandidate(entries[j]) ==> entries[j].modified.value <= t
  }

  /** Entry `i` is a JSONL file strictly newer than every JSONL file before it. */
  predicate NewerThanEarlier(entries: seq<DirEntry>, i: int)
    requires 0 <= i < |entries|
  {
    IsCandidate(entries[i])
      && forall j :: 0 <= j < i && IsCandidate(entries[j]) ==> entries[j].modified.value < entries[i].modified.value
  }

  /** `v` is the path and time of such an entry. */
  predicate ChosenFrom(entries: seq<DirEntry>, v: (string, nat))
  {
    exists i :: 0 <= i < |entries| && NewerThanEarlier(entries, i) && entries[i].path == v.0 && entries[i].modified == Some(v.1)
  }

  /** There is no newest file only when the listing has no readable JSONL file. */
  lemma {:induction false} LatestNoneIff(entries: seq<DirEntry>)
    ensures Latest(entries).None? <==> NoCandidate(entries)
    decreases |entries|
  {
    if entries != [] {
      LatestNoneIff(entries[..|entries| - 1]);
      NoCandidateSnoc(entries);
    }
  }

  /** A listing has no JSONL file when its last entry is none and the others have none. */
  lemma NoCandidateSnoc(entries: seq<DirEntry>)
    requires entries != []
    ensures NoCandidate(entries) <==> NoCandidate(entries[..|entries| - 1]) && !IsCandidate(entries[|entries| - 1])
  {
    var init := entries[..|entries| - 1];
    assert forall i :: 0 <= i < |init| ==> init[i] == entries[i];
  }

  /**
   * The chosen file is a JSONL file of the listing strictly newer than
   * every earlier one (the first on a tie), and none is newer.
   */
  lemma {:induction false} LatestIsNewest(entries: seq<DirEntry>)
    ensures Latest(entries).Some? ==> ChosenFrom(entries, Latest(entries).value) && NoneNewer(entries, Latest(entries).value.1)
    decreases |entries|
  {
    if entries != [] {
      var n := |entries|;
      var init := entries[..n - 1];
      var acc := Latest(init);
      var e := entries[n - 1];
      LatestIsNewest(init);
      LatestNoneIff(init);
      assert forall i :: 0 <= i < n - 1 ==> init[i] == entries[i];
      if IsCandidate(e) && (acc.None? || e.modified.value > acc.value.1) {
        NewestLast(entries, acc);
      } else if acc.Some? {
        KeepEarlier(entries, acc.value);
      }
    }
  }

  /** A last entry newer than all before it is chosen. */
  lemma NewestLast(entries: seq<DirEntry>, acc: Option<(string, nat)>)
    requires |entries| > 0 && IsCandidate(entries[|entries| - 1])
    requires acc.None? ==> NoCandidate(entries[..|entries| - 1])
    requires acc.Some? ==> NoneNewer(entries[..|entries| - 1], acc.value.1) && entries[|entries| - 1].modified.value > acc.value.1
    ensures ChosenFrom(entries, (entries[|entries| - 1].path, entries[|entries| - 1].modified.value))
    ensures NoneNewer(entries, entries[|entries| - 1].modified.value)
  {
    var n := |entries|;
    var init, last := entries[..n - 1], entries[n - 1];
    forall j | 0 <= j < n - 1 && IsCandidate(entries[j])
      ensures entries[j].modified.value < last.modified.value
    {
      assert init[j] == entries[j];
    }
    assert NewerThanEarlier(entries, n - 1);
  }

  /** An earlier choice stays chosen when the last entry is not newer. */
  lemma KeepEarlier(entries: seq<DirEntry>, v: (string, nat))
    requires |entries| > 0
    requires ChosenFrom(entries[..|entries| - 1], v) && NoneNewer(entries[..|entries| - 1], v.1)
    requires IsCandidate(entries[|entries| - 1]) ==> entries[|entries| - 1].modified.value <= v.1
    ensures ChosenFrom(entries, v) && NoneNewer(entries, v.1)
  {
    var init := entries[..|entries| - 1];
    var i :| 0 <= i < |init| && NewerThanEarlier(init, i) && init[i].path == v.0 && init[i].modified == Some(v.1);
    NewerThanEarlierKept(entries, i);
    NoneNewerKept(entries, v.1);
  }

  lemma NewerThanEarlierKept(entries: seq<DirEntry>, i: nat)
    requires i < |entries| - 1 && NewerThanEarlier(entries[..|entries| - 1], i)
    ensures NewerThanEarlier(entries, i)
  {
    var init := entries[..|entries| - 1];
    assert init[i] == entries[i];
    forall j | 0 <= j < i && IsCandidate(entries[j])
      ensures entries[j].modified.value < entries[i].modified.value
    {
      assert init[j] == entries[j];
    }
  }

  lemma NoneNewerKept(entries: seq<DirEntry>, t: nat)
    requires |entries| > 0 && NoneNewer(entries[..|entries| - 1], t)
    requires IsCandidate(entries[|entries| - 1]) ==> entries[|entries| - 1].modified.value <= t
    ensures NoneNewer(entries, t)
  {
    var init := entries[..|entries| - 1];
    forall j | 0 <= j < |entries| && IsCandidate(entries[j])
      ensures entries[j].modified.value <= t
    {
      if j < |init| {
        assert init[j] == entries[j];
      }
    }
  }

  // ---------------------------------------------------------------------------
  // The monitor
  // ---------------------------------------------------------------------------

  /** A line sent on when it is not blank and parses as an entry. */
  function ParseLine(line: string, parse: string -> Option<LogEntry>, toJson: Value -> string, now: nat): (r: seq<ParsedLogLine>)
    ensures |r| <= 1
    ensures forall k :: 0 <= k < |r| ==> r[k].raw == line && Trim(line) != []
  {
    if Trim(line) != [] && parse(line).Some? then
      var entry := parse(line).value;
      [ParsedLogLine(now, LogTypeOf(entry.entryType), ExtractContent(entry, toJson), line)]
    else []
  }

  /** The parsed lines of `lines` that are not blank and parse as an entry. */
  function ParsedLines(lines: seq<string>, parse: string -> Option<LogEntry>, toJson: Value -> string, now: nat): (r: seq<ParsedLogLine>)
    ensures |r| <= |lines|
    decreases |lines|
  {
    if lines == [] then []
    else
      ParsedLines(lines[..|lines| - 1], parse, toJson, now) + ParseLine(lines[|lines| - 1], parse, toJson, now)
  }

  /**
   * The log monitor's bookkeeping: the file being followed and the number
   * of its lines already read.
   */
  class LogMonitor {
    var currentFile: Option<string>
    var lastPosition: nat

    constructor ()
      ensures currentFile == None && lastPosition == 0
    {
      currentFile := None;
      lastPosition := 0;
    }

    /**
     * `find_latest_session` over a directory listing: the newest JSONL file
     * becomes the current file; a different file is read from its start.
     */
    method FindLatestSession(entries: seq<DirEntry>)
      modifies this
      ensures Latest(entries).Some? && old(currentFile) != Some(Latest(entries).value.0) ==>
        currentFile == Some(Latest(entries).value.0) && lastPosition == 0
      ensures Latest(entries).None? || old(currentFile) == Some(Latest(entries).value.0) ==>
        currentFile == old(currentFile) && lastPosition == old(lastPosition)
    {
      var latest: Option<(string, nat)> := None;
      var i := 0;
      while i < |entries|
        invariant 0 <= i <= |entries|
        invariant latest == Latest(entries[..i])
      {
        var e := entries[i];
        assert entries[..i + 1][..i] == entries[..i];
        if IsCandidate(e) && (latest.None? || e.modified.value > latest.value.1) {
          latest := Some((e.path, e.modified.value));
        }
        i := i + 1;
      }
      assert entries[..|entries|] == entries;
      if latest.Some? && currentFile != Some(latest.value.0) {
        currentFile := Some(latest.value.0);
        lastPosition := 0;
      }
    }

    /**
     * `check_current_file`: with a file whose text could be read, every
     * line from `lastPosition` on that is not blank and parses is sent on,
     * and `lastPosition` becomes the file's line count; a failed read
     * changes nothing.
     */
    method CheckCurrentFile(read: Option<string>, parse: string -> Option<LogEntry>, toJson: Value -> string, now: nat)
      returns (sent: seq<ParsedLogLine>)
      modifies this
      ensures currentFile == old(currentFile)
      ensures old(currentFile).None? || read.None? ==> sent == [] && lastPosition == old(lastPosition)
      ensures old(currentFile).Some? && read.Some? ==> lastPosition == |Lines(read.value)|
      ensures old(currentFile).Some? && read.Some? ==>
        sent == if old(lastPosition) < |Lines(read.value)|
                then ParsedLines(Lines(read.value)[old(lastPosition)..], parse, toJson, now)
                else []
    {
      sent := [];
      if currentFile.None? || read.None? {
        return;
      }
      var lines := Lines(read.value);
      if lastPosition < |lines| {
        sent := ReadFrom(lines, lastPosition, parse, toJson, now);
      }
      lastPosition := |lines|;
    }
  }

  /** Reading a line after others adds what that line gives. */
  lemma ParsedLinesSnoc(lines: seq<string>, line: string, parse: string -> Option<LogEntry>, toJson: Value -> string, now: nat)
    ensures ParsedLines(lines + [line], parse, toJson, now) == ParsedLines(lines, parse, toJson, now) + ParseLine(line, parse, toJson, now)
  {
    assert (lines + [line])[..|lines|] == lines;
  }

  /** Reading one more line adds what that line gives. */
  lemma ParsedLinesStep(lines: seq<string>, i: nat, parse: string -> Option<LogEntry>, toJson: Value -> string, now: nat)
    requires i < |lines|
    ensures ParsedLines(lines[..i + 1], parse, toJson, now) == ParsedLines(lines[..i], parse, toJson, now) + ParseLine(lines[i], parse, toJson, now)
  {
    assert lines[..i + 1][..i] == lines[..i];
  }

  /** The loop of `check_current_file` over the lines from `start` on. */
  method ReadFrom(lines: seq<string>, start: nat, parse: string -> Option<LogEntry>, toJson: Value -> string, now: nat)
    returns (sent: seq<ParsedLogLine>)
    requires start <= |lines|
    ensures sent == ParsedLines(lines[start..], parse, toJson, now)
  {
    var rest := lines[start..];
    sent := [];
    var i := 0;
    while i < |rest|
      invariant 0 <= i <= |rest|
      invariant sent == ParsedLines(rest[..i], parse, toJson, now)
    {
      ParsedLinesStep(rest, i, parse, toJson, now);
      sent := sent + ParseLine(rest[i], parse, toJson, now);
      i := i + 1;
    }
    assert rest[..i] == rest;
  }

  /** Every line sent on is a non-blank line of the file. */
  lemma {:induction false} ParsedLinesFromFile(lines: seq<string>, parse: string -> Option<LogEntry>, toJson: Value -> string, now: nat)
    ensures forall k :: 0 <= k < |ParsedLines(lines, parse, toJson, now)| ==>
      ParsedLines(lines, parse, toJson, now)[k].raw in lines && Trim(ParsedLines(lines, parse, toJson, now)[k].raw) != []
    decreases |lines|
  {
    if lines != [] {
      var init := lines[..|lines| - 1];
      ParsedLinesFromFile(init, parse, toJson, now);
      assert forall x :: x in init ==> x in lines;
    }
  }

  /** Reading in two steps sends what reading the same lines at once would. */
  lemma {:induction false} ParsedLinesAppend(a: seq<string>, b: seq<string>, parse: string -> Option<LogEntry>, toJson: Value -> string, now: nat)
    ensures ParsedLines(a + b, parse, toJson, now) == ParsedLines(a, parse, toJson, now) + ParsedLines(b, parse, toJson, now)
    decreases |b|
  {
    if b == [] {
      assert a + b == a;
    } else {
      var init := b[..|b| - 1];
      var x := b[|b| - 1];
      SplitLast(a, b);
      ParsedLinesSnoc(a + init, x, parse, toJson, now);
      ParsedLinesSnoc(init, x, parse, toJson, now);
      ParsedLinesAppend(a, init, parse, toJson, now);
      ConcatAssoc(ParsedLines(a, parse, toJson, now), ParsedLines(init, parse, toJson, now), ParseLine(x, parse, toJson, now));
    }
  }
}
