/**
 * The terminal app's own state (crates/orchestrator/src/app.rs): the
 * output pane and the session-log pane, each a bounded list of lines with
 * its scroll position, the interaction mode, the pending executor launch
 * and the error dialog. Channels, the control center and the relay are
 * not modelled; the logs a poll pulls in are a parameter.
 */
module OrchestratorApp {
  import opened StrUtil
  import opened JsonValue
  import opened OrchestratorTypes
  import TextWrap
  import ControlCenterLogs

  /** `MAX_OUTPUT_LINES`. */
  const MAX_OUTPUT_LINES: nat := 1000
  /** The session-log cap in `poll_logs`. */
  const MAX_LOGS: nat := 1000

  /** The app's modes, with the recording mode of the speech-enabled build. */
  datatype Mode = Idle | Recording | PlanPending | Executing | ExecutorRunning | ConfirmingExecutor | ShowingError

  datatype ScrollDirection = Up | Down | PageUp | PageDown | Home | End

  datatype SessionAction = ContinuePrevious | StartNew | Declined

  datatype PendingExecutor = PendingExecutor(
    prompt: string,
    executorName: string,
    workingDir: string,
    confirmationId: Option<string>,
    isInitialPrompt: bool,
    sessionAction: Option<SessionAction>)

  datatype ErrorInfo = ErrorInfo(title: string, message: string, details: Option<string>)

  // ---------------------------------------------------------------------------
  // Bounded panes
  // ---------------------------------------------------------------------------

  /** The newest `n` elements of `s` (all of them when there are no more). */
  function Newest<T>(s: seq<T>, n: nat): (r: seq<T>)
    ensures |r| == if |s| <= n then |s| else n
    ensures r == s[|s| - |r|..]
  {
    if |s| <= n then s else s[|s| - n..]
  }

  /** `o - d`, stopping at zero. */
  function Lower(o: nat, d: nat): (r: nat)
    ensures r <= o
    ensures r == 0 || r + d == o
  {
    if o >= d then o - d else 0
  }

  /** Keeping the newest of the newest is keeping the newest. */
  lemma NewestOfNewest<T>(s: seq<T>, t: seq<T>, n: nat)
    ensures Newest(Newest(s, n) + t, n) == Newest(s + t, n)
  {
    if |s| > n {
      var st := s + t;
      var a := |s| - n;
      assert Newest(s, n) + t == st[a..];
      assert st[a..][|st| - a - n..] == st[|st| - n..];
    }
  }

  /** Lowering twice is lowering by the sum. */
  lemma LowerTwice(o: nat, d1: nat, d2: nat)
    ensures Lower(Lower(o, d1), d2) == Lower(o, d1 + d2)
  {
  }

  /** One `push` followed by `trim_output`: past the cap the oldest line goes and a positive offset drops by one. */
  function PushTrimmed(out: seq<string>, offset: nat, line: string): (r: (seq<string>, nat))
    requires |out| <= MAX_OUTPUT_LINES
    ensures r.0 == Newest(out + [line], MAX_OUTPUT_LINES)
    ensures r.1 == Lower(offset, |out| + 1 - |r.0|)
  {
    var grown := out + [line];
    if |grown| > MAX_OUTPUT_LINES then (grown[1..], if offset > 0 then offset - 1 else 0)
    else (grown, offset)
  }

  /** The wrapped lines pushed one at a time, trimming after each. */
  function PushAllTrimmed(out: seq<string>, offset: nat, lines: seq<string>): (r: (seq<string>, nat))
    requires |out| <= MAX_OUTPUT_LINES
    ensures |r.0| <= MAX_OUTPUT_LINES
    decreases |lines|
  {
    if lines == [] then (out, offset)
    else
      var p := PushTrimmed(out, offset, lines[0]);
      PushAllTrimmed(p.0, p.1, lines[1..])
  }

  /**
   * The output keeps the newest lines, at most `MAX_OUTPUT_LINES` of them,
   * and the offset drops by the number of lines dropped, stopping at zero.
   */
  lemma {:induction false} PushAllKeepsNewest(out: seq<string>, offset: nat, lines: seq<string>)
    requires |out| <= MAX_OUTPUT_LINES
    ensures PushAllTrimmed(out, offset, lines).0 == Newest(out + lines, MAX_OUTPUT_LINES)
    ensures PushAllTrimmed(out, offset, lines).1
      == Lower(offset, |out| + |lines| - |PushAllTrimmed(out, offset, lines).0|)
    decreases |lines|
  {
    PushAllContents(out, offset, lines);
    if lines != [] {
      var p := PushTrimmed(out, offset, lines[0]);
      var r := PushAllTrimmed(p.0, p.1, lines[1..]);
      assert PushAllTrimmed(out, offset, lines) == r;
      PushAllKeepsNewest(p.0, p.1, lines[1..]);
      OffsetStep(out, offset, p, lines[1..], r);
    }
  }

  /** The lines kept after pushing each of `lines`: the newest of everything. */
  lemma {:induction false} PushAllContents(out: seq<string>, offset: nat, lines: seq<string>)
    requires |out| <= MAX_OUTPUT_LINES
    ensures PushAllTrimmed(out, offset, lines).0 == Newest(out + lines, MAX_OUTPUT_LINES)
    decreases |lines|
  {
    if lines == [] {
      assert out + lines == out;
    } else {
      var p := PushTrimmed(out, offset, lines[0]);
      var rest := lines[1..];
      PushAllContents(p.0, p.1, rest);
      NewestOfNewest(out + [lines[0]], rest, MAX_OUTPUT_LINES);
      assert [lines[0]] + rest == lines;
      ConcatAssoc(out, [lines[0]], rest);
    }
  }

  /** The offset after one push and then the rest: lowered by everything dropped. */
  lemma OffsetStep(out: seq<string>, offset: nat, p: (seq<string>, nat), rest: seq<string>, r: (seq<string>, nat))
    requires |out| + 1 >= |p.0| && p.1 == Lower(offset, |out| + 1 - |p.0|)
    requires |r.0| <= |p.0| + |rest| && r.1 == Lower(p.1, |p.0| + |rest| - |r.0|)
    ensures r.1 == Lower(offset, |out| + 1 + |rest| - |r.0|)
  {
    LowerTwice(offset, |out| + 1 - |p.0|, |p.0| + |rest| - |r.0|);
  }

  /** `get_max_scroll`: the last line's index, or 0 when there are no lines. */
  function MaxScroll(lineCount: nat): (r: nat)
    ensures lineCount > 0 ==> r < lineCount && r + 1 == lineCount
    ensures lineCount == 0 ==> r == 0
  {
    if lineCount == 0 then 0 else lineCount - 1
  }

  /** The scroll position after `handle_scroll`, with `max` the pane's `get_max_scroll`. */
  function Scrolled(s: Scroll, direction: ScrollDirection, amount: nat, max: nat): (r: Scroll)
  {
    match direction
    case Up => ScrollUp(s, amount)
    case Down => ScrollDown(s, amount, max)
    case PageUp => ScrollUp(s, amount)
    case PageDown => ScrollDown(s, amount, max)
    case Home => Scroll(0, s.autoScroll)
    case End => ScrollToBottom(max)
  }

  /**
   * Home goes to the top without touching follow mode, End to the bottom
   * with follow mode on; an offset within range stays within range
   * whichever way the pane is scrolled, and only moving down or to the end
   * can turn follow mode on.
   */
  lemma ScrolledStaysInRange(s: Scroll, direction: ScrollDirection, amount: nat, max: nat)
    requires s.offset <= max
    ensures Scrolled(s, direction, amount, max).offset <= max
    ensures direction == Home ==> Scrolled(s, direction, amount, max) == Scroll(0, s.autoScroll)
    ensures direction == End ==> Scrolled(s, direction, amount, max) == Scroll(max, true)
    ensures direction in {Up, PageUp} ==> !Scrolled(s, direction, amount, max).autoScroll
    ensures direction in {Up, PageUp, Home} ==> Scrolled(s, direction, amount, max).offset <= s.offset
  {
  }

  /** The log pane follows a poll that brought lines, when it follows at all. */
  function Followed(s: Scroll, total: nat, added: nat): (r: Scroll)
  {
    if added > 0 && s.autoScroll then ScrollToBottom(MaxScroll(total)) else s
  }

  /** The log pane's offset after `removed` lines left its head. */
  function Shifted(s: Scroll, removed: nat): (r: Scroll)
  {
    Scroll(Lower(s.offset, removed), s.autoScroll)
  }

  /** How many logs `poll_logs` drops to get back under the cap. */
  function Excess(total: nat): (r: nat)
    ensures total - r <= MAX_LOGS
    ensures total <= MAX_LOGS ==> r == 0
  {
    if total > MAX_LOGS then total - MAX_LOGS else 0
  }

  /**
   * A following log pane still shows the newest line after the trim: its
   * offset is the last kept line's index.
   */
  lemma FollowingPaneShowsNewest(s: Scroll, before: nat, added: nat)
    requires s.autoScroll && added > 0
    ensures var total := before + added;
      Shifted(Followed(s, total, added), Excess(total)).offset == MaxScroll(total - Excess(total))
    ensures Shifted(Followed(s, before + added, added), Excess(before + added)).autoScroll
  {
  }

  /** A pane that does not follow keeps its line in view: it moves up by the lines dropped above it. */
  lemma StillPaneKeepsItsLine(s: Scroll, before: nat, added: nat)
    requires !s.autoScroll && s.offset >= Excess(before + added)
    ensures Shifted(Followed(s, before + added, added), Excess(before + added)).offset + Excess(before + added) == s.offset
  {
  }

  // ---------------------------------------------------------------------------
  // get_logs
  // ---------------------------------------------------------------------------

  /** serde_json `as_u64`: a non-negative integer below 2^64. */
  function AsU64(v: Option<Value>): (r: Option<nat>)
    ensures r.Some? <==> v.Some? && v.value.Int? && 0 <= v.value.i < U64_BOUND
    ensures r.Some? ==> r.value == v.value.i
  {
    if v.Some? && v.value.Int? && 0 <= v.value.i < U64_BOUND then Some(v.value.i as nat) else None
  }

  /** The `limit` of a relay `get_logs` frame: 100 by default, then clamped to [1, 200]. */
  function LogsLimit(frame: Value): (r: nat)
    ensures 1 <= r <= 200
    ensures AsU64(Get(frame, "limit")).None? ==> r == 100
    ensures AsU64(Get(frame, "limit")).Some? && 1 <= AsU64(Get(frame, "limit")).value <= 200 ==>
              r == AsU64(Get(frame, "limit")).value
    ensures AsU64(Get(frame, "limit")) == Some(0) ==> r == 1
    ensures AsU64(Get(frame, "limit")).Some? && AsU64(Get(frame, "limit")).value > 200 ==> r == 200
  {
    var limit := match AsU64(Get(frame, "limit")) case Some(n) => n case None => 100;
    if limit == 0 then 1 else if limit > 200 then 200 else limit
  }

  /** The logs a `get_logs` reply carries: the newest `limit`, newest first. */
  function LatestLogs<T>(logs: seq<T>, limit: nat): (r: seq<T>)
    ensures |r| == if |logs| <= limit then |logs| else limit
    ensures forall i :: 0 <= i < |r| ==> r[i] == logs[|logs| - 1 - i]
    decreases limit
  {
    if limit == 0 || logs == [] then []
    else [logs[|logs| - 1]] + LatestLogs(logs[..|logs| - 1], limit - 1)
  }

  /** The app. */
  class App {
    var output: seq<string>
    var mode: Mode
    var pendingExecutor: Option<PendingExecutor>
    var errorInfo: Option<ErrorInfo>
    var scroll: Scroll
    var sessionLogs: seq<ControlCenterLogs.ParsedLogLine>
    var logScroll: Scroll

    /** Both panes stay under their caps. */
    predicate Valid()
      reads this
    {
      |output| <= MAX_OUTPUT_LINES && |sessionLogs| <= MAX_LOGS
    }

    /** `App::new`, leaving out the settings, channels and control center. */
    constructor ()
      ensures Valid()
      ensures output == [] && mode == Idle && pendingExecutor.None? && errorInfo.None?
      ensures scroll == INITIAL_SCROLL && sessionLogs == [] && logScroll == INITIAL_SCROLL
    {
      output := [];
      mode := Idle;
      pendingExecutor := None;
      errorInfo := None;
      scroll := INITIAL_SCROLL;
      sessionLogs := [];
      logScroll := INITIAL_SCROLL;
    }

    /** `get_max_scroll`. */
    function GetMaxScroll(): (r: nat)
      reads this
      ensures output != [] ==> r == |output| - 1
      ensures output == [] ==> r == 0
    {
      MaxScroll(|output|)
    }

    /** `trim_output`: past the cap the oldest line goes and a positive offset drops by one. */
    method TrimOutput()
      requires |output| <= MAX_OUTPUT_LINES + 1
      modifies this
      ensures Valid() || |sessionLogs| > MAX_LOGS
      ensures output == Newest(old(output), MAX_OUTPUT_LINES)
      ensures scroll == Scroll(Lower(old(scroll).offset, |old(output)| - |output|), old(scroll).autoScroll)
      ensures mode == old(mode) && pendingExecutor == old(pendingExecutor) && errorInfo == old(errorInfo)
      ensures sessionLogs == old(sessionLogs) && logScroll == old(logScroll)
    {
      if |output| > MAX_OUTPUT_LINES {
        output := output[1..];
        if scroll.offset > 0 {
          scroll := scroll.(offset := scroll.offset - 1);
        }
      }
    }

    /** The loop of `append_output`: each line is pushed and the output trimmed after it. */
    method PushLines(lines: seq<string>)
      requires Valid()
      modifies this
      ensures Valid()
      ensures output == PushAllTrimmed(old(output), old(scroll).offset, lines).0
      ensures scroll == Scroll(PushAllTrimmed(old(output), old(scroll).offset, lines).1, old(scroll).autoScroll)
      ensures mode == old(mode) && pendingExecutor == old(pendingExecutor) && errorInfo == old(errorInfo)
      ensures sessionLogs == old(sessionLogs) && logScroll == old(logScroll)
    {
      var i := 0;
      while i < |lines|
        invariant 0 <= i <= |lines| && Valid()
        invariant PushAllTrimmed(output, scroll.offset, lines[i..])
          == PushAllTrimmed(old(output), old(scroll).offset, lines)
        invariant scroll.autoScroll == old(scroll).autoScroll
        invariant mode == old(mode) && pendingExecutor == old(pendingExecutor) && errorInfo == old(errorInfo)
        invariant sessionLogs == old(sessionLogs) && logScroll == old(logScroll)
      {
        ghost var p := PushTrimmed(output, scroll.offset, lines[i]);
        assert lines[i..][0] == lines[i] && lines[i..][1..] == lines[i + 1..];
        assert PushAllTrimmed(output, scroll.offset, lines[i..]) == PushAllTrimmed(p.0, p.1, lines[i + 1..]);
        output := output + [lines[i]];
        TrimOutput();
        assert output == p.0 && scroll.offset == p.1;
        i := i + 1;
      }
      assert lines[i..] == [];
    }

    /**
     * `append_output`: the line is wrapped, each piece pushed and the output
     * trimmed after it; a following pane then scrolls to the bottom.
     */
    method AppendOutput(line: string)
      requires Valid()
      modifies this
      ensures Valid()
      ensures var p := PushAllTrimmed(old(output), old(scroll).offset, TextWrap.WrapLineFixed(line));
        output == p.0 && scroll == (if old(scroll).autoScroll then ScrollToBottom(MaxScroll(|p.0|)) else Scroll(p.1, false))
      ensures mode == old(mode) && pendingExecutor == old(pendingExecutor) && errorInfo == old(errorInfo)
      ensures sessionLogs == old(sessionLogs) && logScroll == old(logScroll)
    {
      PushLines(TextWrap.WrapLineFixed(line));
      if scroll.autoScroll {
        scroll := ScrollToBottom(GetMaxScroll());
      }
    }

    /** `show_error_with_details`. */
    method ShowErrorWithDetails(title: string, message: string, details: string)
      modifies this
      ensures errorInfo == Some(ErrorInfo(title, message, Some(details))) && mode == ShowingError
      ensures output == old(output) && scroll == old(scroll) && pendingExecutor == old(pendingExecutor)
      ensures sessionLogs == old(sessionLogs) && logScroll == old(logScroll)
    {
      errorInfo := Some(ErrorInfo(title, message, Some(details)));
      mode := ShowingError;
    }

    /** `dismiss_error`: no dialog, back to idle. */
    method DismissError()
      modifies this
      ensures errorInfo.None? && mode == Idle
      ensures output == old(output) && scroll == old(scroll) && pendingExecutor == old(pendingExecutor)
      ensures sessionLogs == old(sessionLogs) && logScroll == old(logScroll)
    {
      errorInfo := None;
      mode := Idle;
    }

    /** `handle_scroll`, against the output's `get_max_scroll`. */
    method HandleScroll(direction: ScrollDirection, amount: nat)
      modifies this
      ensures scroll == Scrolled(old(scroll), direction, amount, MaxScroll(|output|))
      ensures output == old(output) && mode == old(mode) && pendingExecutor == old(pendingExecutor)
      ensures errorInfo == old(errorInfo) && sessionLogs == old(sessionLogs) && logScroll == old(logScroll)
    {
      var max := GetMaxScroll();
      match direction
      case Up => scroll := ScrollUp(scroll, amount);
      case Down => scroll := ScrollDown(scroll, amount, max);
      case PageUp => scroll := ScrollUp(scroll, amount);
      case PageDown => scroll := ScrollDown(scroll, amount, max);
      case Home => scroll := scroll.(offset := 0);
      case End => scroll := ScrollToBottom(max);
    }

    /** `can_cancel`: every mode but idle and the unused executing mode can be cancelled. */
    function CanCancel(): (r: bool)
      reads this
      ensures r <==> mode != Idle && mode != Executing
      ensures mode == ConfirmingExecutor ==> r
    {
      mode.Recording? || mode.PlanPending? || mode.ExecutorRunning? || mode.ConfirmingExecutor? || mode.ShowingError?
    }

    /**
     * `cancel_executor_confirmation`: only while confirming does it drop the
     * pending launch, go idle and say so in the output.
     */
    method CancelExecutorConfirmation()
      requires Valid()
      modifies this
      ensures Valid()
      ensures old(mode) != ConfirmingExecutor ==>
        output == old(output) && scroll == old(scroll) && mode == old(mode) && pendingExecutor == old(pendingExecutor)
      ensures old(mode) == ConfirmingExecutor ==> mode == Idle && pendingExecutor.None?
      ensures old(mode) == ConfirmingExecutor ==>
        var p := PushAllTrimmed(old(output), old(scroll).offset, TextWrap.WrapLineFixed("PLAN> Executor launch cancelled"));
        output == p.0 && scroll == (if old(scroll).autoScroll then ScrollToBottom(MaxScroll(|p.0|)) else Scroll(p.1, false))
      ensures errorInfo == old(errorInfo) && sessionLogs == old(sessionLogs) && logScroll == old(logScroll)
    {
      if mode == ConfirmingExecutor {
        pendingExecutor := None;
        mode := Idle;
        AppendOutput("PLAN> Executor launch cancelled");
      }
    }

    /**
     * `poll_logs`: the polled logs are pushed, a following pane kept at the
     * bottom, then the oldest logs past the cap dropped and the offset moved
     * up by as many, stopping at zero.
     */
    method PollLogs(polled: seq<ControlCenterLogs.ParsedLogLine>)
      requires Valid()
      modifies this
      ensures Valid()
      ensures sessionLogs == Newest(old(sessionLogs) + polled, MAX_LOGS)
      ensures var total := |old(sessionLogs)| + |polled|;
        logScroll == Shifted(Followed(old(logScroll), total, |polled|), Excess(total))
      ensures output == old(output) && scroll == old(scroll) && mode == old(mode)
      ensures pendingExecutor == old(pendingExecutor) && errorInfo == old(errorInfo)
    {
      var logs, sc := sessionLogs, logScroll;
      ghost var logs0 := logs;
      var i := 0;
      while i < |polled|
        invariant 0 <= i <= |polled|
        invariant logs == logs0 + polled[..i]
        invariant sc == Followed(old(logScroll), |logs|, i)
      {
        logs := logs + [polled[i]];
        if sc.autoScroll {
          sc := ScrollToBottom(MaxScroll(|logs|));
        }
        i := i + 1;
      }
      assert polled[..i] == polled;
      if |logs| > MAX_LOGS {
        var removeCount := |logs| - MAX_LOGS;
        logs := logs[removeCount..];
        if sc.offset >= removeCount {
          sc := sc.(offset := sc.offset - removeCount);
        } else {
          sc := sc.(offset := 0);
        }
      }
      sessionLogs, logScroll := logs, sc;
    }
  }
}
