/**
 * Executor kinds and the log filtering that feeds session summaries
 * (crates/control_center/src/executor/traits.rs). JSON parsing of a log
 * line is a parameter; the executor session interface itself (launching,
 * reading output, terminating) is process I/O and left out.
 */
module ExecutorSummary {
  import opened StrUtil
  import opened JsonValue
  import ControlCenterLogs

  type ParsedLogLine = ControlCenterLogs.ParsedLogLine

  datatype ExecutorType = Claude | Devin | Codex | Custom(customName: string)

  /** `ExecutorType::name`: the fixed names, or a custom executor's own name. */
  function Name(e: ExecutorType): (name: string)
    ensures e.Custom? ==> name == e.customName
    ensures e == Claude ==> name == "Claude"
    ensures e == Devin ==> name == "Devin"
    ensures e == Codex ==> name == "Codex"
  {
    match e
    case Claude => "Claude"
    case Devin => "Devin"
    case Codex => "Codex"
    case Custom(n) => n
  }

  // ---------------------------------------------------------------------------
  // Truncation (`truncate_text`)
  // ---------------------------------------------------------------------------

  /**
   * `truncate_text` as written slices `&text[..max_len]` by bytes and
   * panics when that offset falls inside a character; the model uses the
   * cut at the last character boundary instead (StrUtil.TruncateBytes).
   */
  function TruncateTextAsWritten(text: string, maxLen: nat): (r: Option<string>)
    ensures r.Some? ==> |r.value| <= |text| && r.value == text[..|r.value|] && ByteLen(r.value) <= maxLen
  {
    TruncateBytesAsWritten(text, maxLen)
  }

  /** A 150-byte cut through a two-byte character: an assistant message that panics the generic filter. */
  lemma TruncateTextPanics(head: string, c: char, tail: string)
    requires |head| == 149 && IsAscii(head) && Utf8Width(c) == 2
    ensures TruncateTextAsWritten(head + [c] + tail, 150).None?
  {
    TruncateSplitsCharacter(head, c, tail);
  }

  // ---------------------------------------------------------------------------
  // Generic filter
  // ---------------------------------------------------------------------------

  /** The log types the generic filter keeps. */
  predicate KeptByGeneric(t: ControlCenterLogs.LogType)
  {
    t == ControlCenterLogs.UserMessage || t == ControlCenterLogs.AssistantMessage || t == ControlCenterLogs.Error
  }

  /** `line` is the kept log line `log`, cut to 150 bytes. */
  predicate KeptAs(log: ParsedLogLine, line: string)
  {
    KeptByGeneric(log.entryType) && line == TruncateBytes(log.content, 150)
  }

  /**
   * `filter_generic_logs`: user, assistant and error lines, in order, each
   * cut to 150 bytes.
   */
  function GenericLines(logs: seq<ParsedLogLine>): (r: seq<string>)
    ensures |r| <= |logs|
    ensures forall k :: 0 <= k < |r| ==> ByteLen(r[k]) <= 150
    decreases |logs|
  {
    if logs == [] then []
    else
      var rest := GenericLines(logs[1..]);
      if KeptByGeneric(logs[0].entryType) then [TruncateBytes(logs[0].content, 150)] + rest else rest
  }

  /** `line` is one of `logs`' kept lines, cut to 150 bytes. */
  predicate FromKept(logs: seq<ParsedLogLine>, line: string)
  {
    exists j :: 0 <= j < |logs| && KeptAs(logs[j], line)
  }

  lemma FromKeptTail(logs: seq<ParsedLogLine>, line: string)
    requires logs != [] && FromKept(logs[1..], line)
    ensures FromKept(logs, line)
  {
    var j :| 0 <= j < |logs[1..]| && KeptAs(logs[1..][j], line);
    assert KeptAs(logs[j + 1], line);
  }

  /** Every filtered line is some kept log's content, cut to 150 bytes. */
  lemma {:induction false} GenericLinesFromKept(logs: seq<ParsedLogLine>)
    ensures forall k :: 0 <= k < |GenericLines(logs)| ==> FromKept(logs, GenericLines(logs)[k])
    decreases |logs|
  {
    if logs != [] {
      GenericLinesFromKept(logs[1..]);
      var r, rest := GenericLines(logs), GenericLines(logs[1..]);
      var kept := KeptByGeneric(logs[0].entryType);
      assert r == (if kept then [TruncateBytes(logs[0].content, 150)] else []) + rest;
      forall k | 0 <= k < |r|
        ensures FromKept(logs, r[k])
      {
        if kept && k == 0 {
          assert KeptAs(logs[0], r[0]);
        } else {
          var i := if kept then k - 1 else k;
          assert r[k] == rest[i];
          FromKeptTail(logs, r[k]);
        }
      }
    }
  }

  /** The first log's line, if kept, then the lines of the others. */
  lemma GenericLinesStep(logs: seq<ParsedLogLine>)
    requires logs != []
    ensures GenericLines(logs) == (if KeptByGeneric(logs[0].entryType) then [TruncateBytes(logs[0].content, 150)] else [])
                                  + GenericLines(logs[1..])
  {
  }

  /** Filtering two batches is filtering them one after the other. */
  lemma {:induction false} GenericLinesAppend(a: seq<ParsedLogLine>, b: seq<ParsedLogLine>)
    ensures GenericLines(a + b) == GenericLines(a) + GenericLines(b)
    decreases |a|
  {
    if a != [] {
      var head := if KeptByGeneric(a[0].entryType) then [TruncateBytes(a[0].content, 150)] else [];
      assert (a + b)[0] == a[0];
      assert (a + b)[1..] == a[1..] + b;
      GenericLinesStep(a + b);
      GenericLinesStep(a);
      GenericLinesAppend(a[1..], b);
      ConcatAssoc(head, GenericLines(a[1..]), GenericLines(b));
    } else {
      assert a + b == b;
    }
  }

  /** Short kept lines pass through unchanged, and no other log contributes. */
  lemma {:induction false} GenericLinesKeepShort(logs: seq<ParsedLogLine>)
    requires forall j :: 0 <= j < |logs| ==> KeptByGeneric(logs[j].entryType) && ByteLen(logs[j].content) <= 150
    ensures |GenericLines(logs)| == |logs|
    ensures forall k :: 0 <= k < |logs| ==> GenericLines(logs)[k] == logs[k].content
    decreases |logs|
  {
    if logs != [] {
      GenericLinesKeepShort(logs[1..]);
      assert GenericLines(logs) == [logs[0].content] + GenericLines(logs[1..]);
      assert forall k :: 0 < k < |logs| ==> logs[1..][k - 1] == logs[k];
    }
  }

  // ---------------------------------------------------------------------------
  // Tool descriptions and results
  // ---------------------------------------------------------------------------

  /** The tools `describe_tool_use` describes by their input. */
  const KNOWN_TOOLS: seq<string> := ["Write", "MultiEdit", "Read", "Bash", "Glob", "Grep", "Task"]

  /** An ASCII label before a cut text adds the label's length to the cut's bound. */
  lemma LabelBounded(tag: string, text: string, n: nat)
    requires IsAscii(tag)
    ensures StartsWith(tag + TruncateBytes(text, n), tag)
    ensures ByteLen(tag + TruncateBytes(text, n)) <= |tag| + n
  {
    StartsWithConcat(tag, TruncateBytes(text, n));
    ByteLenAscii(tag);
    ByteLenAppend(tag, TruncateBytes(text, n));
  }

  /** A search is described by its name and its pattern cut to 30 bytes, in quotes. */
  lemma PatternLabelBounded(toolName: string, pattern: string)
    ensures StartsWith(toolName + " '" + TruncateBytes(pattern, 30) + "'", toolName + " '")
    ensures ByteLen(toolName + " '" + TruncateBytes(pattern, 30) + "'") <= ByteLen(toolName) + 33
  {
    var cut := TruncateBytes(pattern, 30);
    assert toolName + " '" + cut + "'" == (toolName + " '") + (cut + "'");
    StartsWithConcat(toolName + " '", cut + "'");
    ByteLenAscii(" '");
    ByteLenAscii("'");
    ByteLenAppend(toolName, " '");
    ByteLenAppend(cut, "'");
    ByteLenAppend(toolName + " '", cut + "'");
  }

  /**
   * `describe_tool_use`: the last path segment for writes, edits and
   * reads, the command cut to 50 bytes for Bash, the pattern cut to 30 for
   * searches, the description of a task, and the bare name otherwise.
   */
  function DescribeToolUse(toolName: string, input: Value): (r: string)
    ensures toolName !in KNOWN_TOOLS ==> r == toolName
    ensures toolName == "Bash" && AsStr(Get(input, "command")).Some? ==> StartsWith(r, "Run: ") && ByteLen(r) <= 55
    ensures (toolName == "Glob" || toolName == "Grep") && AsStr(Get(input, "pattern")).Some? ==>
      StartsWith(r, toolName + " '") && ByteLen(r) <= ByteLen(toolName) + 33
  {
    var filePath := AsStr(Get(input, "file_path"));
    if toolName == "Write" || toolName == "MultiEdit" then
      match filePath
      case Some(path) => toolName + " " + AfterLast(path, '/')
      case None => toolName
    else if toolName == "Read" then
      match filePath
      case Some(path) => "Read " + AfterLast(path, '/')
      case None => "Read file"
    else if toolName == "Bash" then
      match AsStr(Get(input, "command"))
      case Some(cmd) => LabelBounded("Run: ", cmd, 50); "Run: " + TruncateBytes(cmd, 50)
      case None => "Run command"
    else if toolName == "Glob" || toolName == "Grep" then
      match AsStr(Get(input, "pattern"))
      case Some(pattern) => PatternLabelBounded(toolName, pattern); toolName + " '" + TruncateBytes(pattern, 30) + "'"
      case None => toolName
    else if toolName == "Task" then
      match AsStr(Get(input, "description"))
      case Some(desc) => "Task: " + desc
      case None => "Launch task"
    else toolName
  }

  /** A write names the file it wrote by its last path segment. */
  lemma DescribeWrite(toolName: string, input: Value, path: string)
    requires toolName == "Write" || toolName == "MultiEdit"
    requires AsStr(Get(input, "file_path")) == Some(path)
    ensures var segment := AfterLast(path, '/');
      DescribeToolUse(toolName, input) == toolName + " " + segment && '/' !in segment && EndsWith(path, segment)
  {
  }

  /** A read names the file it read by its last path segment. */
  lemma DescribeRead(toolName: string, input: Value, path: string)
    requires toolName == "Read"
    requires AsStr(Get(input, "file_path")) == Some(path)
    ensures var segment := AfterLast(path, '/');
      DescribeToolUse(toolName, input) == "Read " + segment && '/' !in segment && EndsWith(path, segment)
  {
    assert toolName != "Write" && toolName != "MultiEdit";
  }

  /** The first line mentioning "error" or "Error". */
  function FirstErrorLine(lines: seq<string>): (r: Option<string>)
    ensures r.Some? ==> r.value in lines && (Contains(r.value, "error") || Contains(r.value, "Error"))
    ensures r.Some? ==>
      exists k :: 0 <= k < |lines| && lines[k] == r.value &&
        forall j :: 0 <= j < k ==> !Contains(lines[j], "error") && !Contains(lines[j], "Error")
    ensures r.None? ==> forall k :: 0 <= k < |lines| ==> !Contains(lines[k], "error") && !Contains(lines[k], "Error")
  {
    if lines == [] then None
    else if Contains(lines[0], "error") || Contains(lines[0], "Error") then Some(lines[0])
    else
      var rest := FirstErrorLine(lines[1..]);
      if rest.Some? then FirstErrorAfterHead(lines, rest.value); rest else rest
  }

  /** A first error line of the tail is the first of the whole list when the head mentions no error. */
  lemma FirstErrorAfterHead(lines: seq<string>, line: string)
    requires lines != [] && !Contains(lines[0], "error") && !Contains(lines[0], "Error")
    requires
      exists k :: 0 <= k < |lines| - 1 && lines[1..][k] == line &&
        forall j :: 0 <= j < k ==> !Contains(lines[1..][j], "error") && !Contains(lines[1..][j], "Error")
    ensures
      exists k :: 0 <= k < |lines| && lines[k] == line &&
        forall j :: 0 <= j < k ==> !Contains(lines[j], "error") && !Contains(lines[j], "Error")
  {
    var k :| 0 <= k < |lines| - 1 && lines[1..][k] == line &&
      forall j :: 0 <= j < k ==> !Contains(lines[1..][j], "error") && !Contains(lines[1..][j], "Error");
    assert lines[k + 1] == line;
    forall j | 0 <= j < k + 1
      ensures !Contains(lines[j], "error") && !Contains(lines[j], "Error")
    {
      if j > 0 { assert lines[j] == lines[1..][j - 1]; }
    }
  }

  /** A line of a file listing: an absolute path or one starting with "./". */
  predicate IsPathLine(line: string)
  {
    StartsWith(line, "/") || StartsWith(line, "./")
  }

  /**
   * `summarize_tool_result`: "No results" for an empty search, ahead of
   * every other rule; then the first line of a file creation or update;
   * then the first error line cut to 80 bytes; then a count for a listing
   * of more than five paths; else the first line cut to 100 bytes.
   */
  function SummarizeToolResult(content: string): (r: string)
    ensures Contains(content, "No files found") || Contains(content, "No matches") ==> r == "No results"
    ensures r == [] ==> content == [] || Lines(content)[0] == []
  {
    var lines := Lines(content);
    if Contains(content, "No files found") || Contains(content, "No matches") then "No results"
    else if StartsWith(content, "File created") || StartsWith(content, "File updated") then
      (if lines != [] then lines[0] else "File changed")
    else if (Contains(content, "error") || Contains(content, "Error")) && FirstErrorLine(lines).Some? then
      "Error: " + TruncateBytes(FirstErrorLine(lines).value, 80)
    else if |lines| > 5 && forall k :: 0 <= k < |lines| ==> IsPathLine(lines[k]) then
      "Found " + NatToString(|lines|) + " files"
    else if lines != [] then TruncateBytes(lines[0], 100)
    else ""
  }

  /** A line that `str::lines` gives back unchanged: non-empty, no '\n', no final '\r'. */
  predicate PlainLine(p: string)
  {
    p != [] && '\n' !in p && p[|p| - 1] != '\r'
  }

  /** Joining plain lines with '\n' and splitting them again gives the lines back. */
  lemma {:induction false} LinesOfJoin(parts: seq<string>)
    requires forall k :: 0 <= k < |parts| ==> PlainLine(parts[k])
    ensures Lines(Join(parts, "\n")) == parts
    decreases |parts|
  {
    if |parts| == 1 {
      assert IndexOf(parts[0], '\n').None?;
    } else if |parts| > 1 {
      var rest := Join(parts[1..], "\n");
      assert Join(parts, "\n") == parts[0] + "\n" + rest;
      LinesAtNewline(parts[0], rest, Join(parts, "\n"));
      LinesOfJoin(parts[1..]);
    }
  }

  /** A line without '\n' followed by '\n' is split off as the first line. */
  lemma LinesAtNewline(p: string, rest: string, s: string)
    requires '\n' !in p && s == p + "\n" + rest
    ensures Lines(s) == [StripCr(p)] + Lines(rest)
  {
    assert forall j :: 0 <= j < |p| ==> s[j] == p[j];
    assert s[|p|] == '\n';
    assert IndexOf(s, '\n') == Some(|p|);
    assert s[..|p|] == p && s[|p| + 1..] == rest;
  }

  /** Tool output whose lines are more than five paths, and no earlier rule applies, is counted. */
  lemma SummarizeListing(content: string)
    requires !Contains(content, "No files found") && !Contains(content, "No matches")
    requires !StartsWith(content, "File created") && !StartsWith(content, "File updated")
    requires !Contains(content, "error") && !Contains(content, "Error")
    requires |Lines(content)| > 5 && forall k :: 0 <= k < |Lines(content)| ==> IsPathLine(Lines(content)[k])
    ensures SummarizeToolResult(content) == "Found " + NatToString(|Lines(content)|) + " files"
  {
  }

  lemma FirstCharDiffers(s: string, p: string)
    requires |s| > 0 && |p| > 0 && s[0] != p[0]
    ensures !StartsWith(s, p)
  {
    if |p| <= |s| {
      assert s[..|p|][0] == s[0];
    }
  }

  /**
   * A listing of more than five absolute paths, free of the other rules'
   * words, is summarised by its count.
   */
  lemma FileListingCounted(paths: seq<string>)
    requires |paths| > 5
    requires forall k :: 0 <= k < |paths| ==> PlainLine(paths[k]) && paths[k][0] == '/'
    requires var listing := Join(paths, "\n");
      !Contains(listing, "No files found") && !Contains(listing, "No matches")
      && !Contains(listing, "error") && !Contains(listing, "Error")
    ensures SummarizeToolResult(Join(paths, "\n")) == "Found " + NatToString(|paths|) + " files"
  {
    var listing := Join(paths, "\n");
    LinesOfJoin(paths);
    ListingNotFileWrite(paths);
    AbsolutePathLines(paths);
    SummarizeListing(listing);
  }

  /** A join of absolute paths does not start like a file creation or update. */
  lemma ListingNotFileWrite(paths: seq<string>)
    requires |paths| > 1 && paths[0] != [] && paths[0][0] == '/'
    ensures !StartsWith(Join(paths, "\n"), "File created") && !StartsWith(Join(paths, "\n"), "File updated")
  {
    JoinStartsWithFirst(paths);
    FirstCharDiffers(Join(paths, "\n"), "File created");
    FirstCharDiffers(Join(paths, "\n"), "File updated");
  }

  /** Absolute paths are path lines. */
  lemma AbsolutePathLines(paths: seq<string>)
    requires forall k :: 0 <= k < |paths| ==> paths[k] != [] && paths[k][0] == '/'
    ensures forall k :: 0 <= k < |paths| ==> IsPathLine(paths[k])
  {
    forall k | 0 <= k < |paths|
      ensures IsPathLine(paths[k])
    {
      assert paths[k][..1] == "/";
    }
  }

  /** A join of lines, the first of them non-empty, starts with that line's first character. */
  lemma JoinStartsWithFirst(paths: seq<string>)
    requires |paths| > 1 && paths[0] != []
    ensures Join(paths, "\n") != [] && Join(paths, "\n")[0] == paths[0][0]
  {
    assert Join(paths, "\n") == paths[0] + "\n" + Join(paths[1..], "\n");
  }

  // ---------------------------------------------------------------------------
  // Claude log filter
  // ---------------------------------------------------------------------------

  /** The lines a user message's content items give: the user's text, and summaries of tool results. */
  function UserItemLines(items: seq<Value>): (r: seq<string>)
    decreases |items|
  {
    if items == [] then []
    else UserItemLine(items[0]) + UserItemLines(items[1..])
  }

  function UserItemLine(item: Value): (r: seq<string>)
    ensures |r| <= 1
  {
    var itemType := AsStr(Get(item, "type"));
    match AsStr(Get(item, "text"))
    case Some(text) =>
      if Get(item, "type") == Some(Str("tool_result")) then [] else ["User: " + TruncateBytes(text, 200)]
    case None =>
      if itemType == Some("tool_result") && AsStr(Get(item, "content")).Some? then
        var summary := SummarizeToolResult(AsStr(Get(item, "content")).value);
        if summary != [] then ["• " + summary] else []
      else []
  }

  /** The lines an assistant message's content items give: its text, and the tools it used. */
  function AssistantItemLines(items: seq<Value>): (r: seq<string>)
    decreases |items|
  {
    if items == [] then []
    else AssistantItemLine(items[0]) + AssistantItemLines(items[1..])
  }

  function AssistantItemLine(item: Value): (r: seq<string>)
    ensures |r| <= 1
  {
    match AsStr(Get(item, "text"))
    case Some(text) => ["Claude: " + TruncateBytes(text, 150)]
    case None =>
      var name := AsStr(Get(item, "name"));
      var input := Get(item, "input");
      if AsStr(Get(item, "type")) == Some("tool_use") && name.Some? && input.Some? then
        ["→ " + DescribeToolUse(name.value, input.value)]
      else []
  }

  /** The content items of a message, when it has an array of them. */
  function MessageItems(json: Value): seq<Value>
  {
    match Get(json, "message")
    case Some(message) =>
      (match Get(message, "content")
       case Some(Arr(items)) => items
       case _ => [])
    case None => []
  }

  /** The summary lines one log line gives. `parse` is serde's JSON parser. */
  function LogLines(log: ParsedLogLine, parse: string -> Option<Value>): (r: seq<string>)
    ensures parse(log.content).None? ==> (r != [] <==> log.entryType == ControlCenterLogs.Error)
    ensures parse(log.content).None? && r != [] ==> |r| == 1 && StartsWith(r[0], "Error: ")
    ensures parse(log.content).Some? && AsStr(Get(parse(log.content).value, "type")) == Some("error") ==>
      |r| <= 1 && (r != [] ==> StartsWith(r[0], "ERROR: "))
    ensures parse(log.content).Some? && AsStr(Get(parse(log.content).value, "type")) !in {Some("user"), Some("assistant"), Some("error")} ==> r == []
  {
    match parse(log.content)
    case Some(json) =>
      var logType := AsStr(Get(json, "type"));
      if logType == Some("user") then UserItemLines(MessageItems(json))
      else if logType == Some("assistant") then AssistantItemLines(MessageItems(json))
      else if logType == Some("error") then
        (match AsStr(Get(json, "message"))
         case Some(msg) => ["ERROR: " + TruncateBytes(msg, 100)]
         case None => [])
      else []
    case None =>
      if log.entryType == ControlCenterLogs.Error then ["Error: " + TruncateBytes(log.content, 100)] else []
  }

  /** The summary lines of all log lines, in order. */
  function ClaudeLines(logs: seq<ParsedLogLine>, parse: string -> Option<Value>): seq<string>
    decreases |logs|
  {
    if logs == [] then [] else ClaudeLines(logs[..|logs| - 1], parse) + LogLines(logs[|logs| - 1], parse)
  }

  /** Filtering two batches of logs is filtering them one after the other. */
  lemma {:induction false} ClaudeLinesAppend(a: seq<ParsedLogLine>, b: seq<ParsedLogLine>, parse: string -> Option<Value>)
    ensures ClaudeLines(a + b, parse) == ClaudeLines(a, parse) + ClaudeLines(b, parse)
    decreases |b|
  {
    if b == [] {
      assert a + b == a;
    } else {
      var ab, front, last := a + b, b[..|b| - 1], b[|b| - 1];
      assert ab[..|ab| - 1] == a + front && ab[|ab| - 1] == last;
      ClaudeLinesSnoc(ab, parse);
      ClaudeLinesSnoc(b, parse);
      var tail := LogLines(last, parse);
      ClaudeLinesAppend(a, front, parse);
      ConcatAssoc(ClaudeLines(a, parse), ClaudeLines(front, parse), tail);
    }
  }

  /** The summary of a non-empty batch is that of all but its last log, then the last log's lines. */
  lemma ClaudeLinesSnoc(logs: seq<ParsedLogLine>, parse: string -> Option<Value>)
    requires logs != []
    ensures ClaudeLines(logs, parse) == ClaudeLines(logs[..|logs| - 1], parse) + LogLines(logs[|logs| - 1], parse)
  {
  }

  /** Every summary line is marked with where it came from. */
  predicate Marked(line: string)
  {
    StartsWith(line, "User: ") || StartsWith(line, "• ") || StartsWith(line, "Claude: ")
      || StartsWith(line, "→ ") || StartsWith(line, "ERROR: ") || StartsWith(line, "Error: ")
  }

  predicate AllMarked(lines: seq<string>)
  {
    forall k :: 0 <= k < |lines| ==> Marked(lines[k])
  }

  lemma AllMarkedAppend(a: seq<string>, b: seq<string>)
    requires AllMarked(a) && AllMarked(b)
    ensures AllMarked(a + b)
  {
    assert forall k :: |a| <= k < |a + b| ==> (a + b)[k] == b[k - |a|];
  }

  lemma {:induction false} UserItemLinesMarked(items: seq<Value>)
    ensures AllMarked(UserItemLines(items))
    decreases |items|
  {
    if items != [] {
      UserItemLinesMarked(items[1..]);
      AllMarkedAppend(UserItemLine(items[0]), UserItemLines(items[1..]));
    }
  }

  lemma {:induction false} AssistantItemLinesMarked(items: seq<Value>)
    ensures AllMarked(AssistantItemLines(items))
    decreases |items|
  {
    if items != [] {
      AssistantItemLinesMarked(items[1..]);
      AllMarkedAppend(AssistantItemLine(items[0]), AssistantItemLines(items[1..]));
    }
  }

  /** Every line of the Claude filter carries one of the six markers. */
  lemma {:induction false} ClaudeLinesMarked(logs: seq<ParsedLogLine>, parse: string -> Option<Value>)
    ensures AllMarked(ClaudeLines(logs, parse))
    decreases |logs|
  {
    if logs != [] {
      var log := logs[|logs| - 1];
      ClaudeLinesMarked(logs[..|logs| - 1], parse);
      LogLinesMarked(log, parse);
      AllMarkedAppend(ClaudeLines(logs[..|logs| - 1], parse), LogLines(log, parse));
    }
  }

  /** Every line one log line contributes carries a marker. */
  lemma LogLinesMarked(log: ParsedLogLine, parse: string -> Option<Value>)
    ensures AllMarked(LogLines(log, parse))
  {
    match parse(log.content)
    case Some(json) =>
      var logType := AsStr(Get(json, "type"));
      if logType == Some("user") {
        UserItemLinesMarked(MessageItems(json));
      } else if logType == Some("assistant") {
        AssistantItemLinesMarked(MessageItems(json));
      } else if logType == Some("error") && AsStr(Get(json, "message")).Some? {
        StartsWithConcat("ERROR: ", TruncateBytes(AsStr(Get(json, "message")).value, 100));
      }
    case None =>
      StartsWithConcat("Error: ", TruncateBytes(log.content, 100));
  }

  /** A line that is not JSON contributes only when it is an error line. */
  lemma PlainTextOnlyErrors(log: ParsedLogLine, parse: string -> Option<Value>)
    requires parse(log.content).None? && log.entryType != ControlCenterLogs.Error
    ensures LogLines(log, parse) == []
  {
  }

  /** `filter_claude_logs`: the summary lines of each log line in turn. */
  method FilterClaudeLogs(logs: seq<ParsedLogLine>, parse: string -> Option<Value>) returns (filtered: seq<string>)
    ensures filtered == ClaudeLines(logs, parse)
  {
    filtered := [];
    var i := 0;
    while i < |logs|
      invariant 0 <= i <= |logs|
      invariant filtered == ClaudeLines(logs[..i], parse)
    {
      assert logs[..i + 1][..i] == logs[..i];
      var lines := SummarizeLog(logs[i], parse);
      filtered := filtered + lines;
      i := i + 1;
    }
    assert logs[..|logs|] == logs;
  }

  /** The loop over a user message's content items. */
  method CollectUserItems(items: seq<Value>) returns (lines: seq<string>)
    ensures lines == UserItemLines(items)
  {
    lines := [];
    var i := 0;
    while i < |items|
      invariant 0 <= i <= |items|
      invariant lines + UserItemLines(items[i..]) == UserItemLines(items)
    {
      UserItemLinesAt(items, i);
      ConcatAssoc(lines, UserItemLine(items[i]), UserItemLines(items[i + 1..]));
      lines := lines + UserItemLine(items[i]);
      i := i + 1;
    }
  }

  /** One step of the walk over a user message's items. */
  lemma UserItemLinesAt(items: seq<Value>, i: nat)
    requires i < |items|
    ensures UserItemLines(items[i..]) == UserItemLine(items[i]) + UserItemLines(items[i + 1..])
  {
    assert items[i..][1..] == items[i + 1..];
  }

  /** One step of the walk over an assistant message's items. */
  lemma AssistantItemLinesAt(items: seq<Value>, i: nat)
    requires i < |items|
    ensures AssistantItemLines(items[i..]) == AssistantItemLine(items[i]) + AssistantItemLines(items[i + 1..])
  {
    assert items[i..][1..] == items[i + 1..];
  }

  /** The loop over an assistant message's content items. */
  method CollectAssistantItems(items: seq<Value>) returns (lines: seq<string>)
    ensures lines == AssistantItemLines(items)
  {
    lines := [];
    var i := 0;
    while i < |items|
      invariant 0 <= i <= |items|
      invariant lines + AssistantItemLines(items[i..]) == AssistantItemLines(items)
    {
      AssistantItemLinesAt(items, i);
      ConcatAssoc(lines, AssistantItemLine(items[i]), AssistantItemLines(items[i + 1..]));
      lines := lines + AssistantItemLine(items[i]);
      i := i + 1;
    }
  }

  /** The summary lines of one log line. */
  method SummarizeLog(log: ParsedLogLine, parse: string -> Option<Value>) returns (lines: seq<string>)
    ensures lines == LogLines(log, parse)
  {
    lines := [];
    match parse(log.content)
    case Some(json) =>
      var logType := AsStr(Get(json, "type"));
      if logType == Some("user") {
        lines := CollectUserItems(MessageItems(json));
      } else if logType == Some("assistant") {
        lines := CollectAssistantItems(MessageItems(json));
      } else if logType == Some("error") {
        match AsStr(Get(json, "message"))
        case Some(msg) => lines := ["ERROR: " + TruncateBytes(msg, 100)];
        case None =>
      }
    case None =>
      if log.entryType == ControlCenterLogs.Error {
        lines := ["Error: " + TruncateBytes(log.content, 100)];
      }
  }

  /**
   * `filter_logs_for_summary`: Claude logs go through the Claude filter;
   * Devin, Codex and custom executors through the generic one.
   */
  method FilterLogsForSummary(e: ExecutorType, logs: seq<ParsedLogLine>, parse: string -> Option<Value>) returns (r: seq<string>)
    ensures e == Claude ==> r == ClaudeLines(logs, parse)
    ensures e != Claude ==> r == GenericLines(logs)
  {
    if e == Claude {
      r := FilterClaudeLogs(logs, parse);
    } else {
      r := GenericLines(logs);
    }
  }
}
