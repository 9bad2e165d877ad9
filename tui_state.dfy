/**
 * The terminal UI's own state (crates/orchestrator-tui/src/state.rs):
 * two scrollable panes, the output and log buffers, the input line, the
 * selected tab, the help overlay and the error dialog. The channel to the
 * core (`send_user_text`) is not part of this model.
 */
module TuiStateModel {
  import opened StrUtil
  import BoundedQueue

  /** The log buffer's capacity. */
  const LOG_CAPACITY: nat := 1000

  datatype Tab = Output | Logs

  /** The value of a pane's `ScrollState`. */
  datatype Pane = Pane(position: nat, maxPosition: nat)

  /** A pane is in range when its position does not pass its maximum. */
  predicate InRange(p: Pane)
  {
    p.position <= p.maxPosition
  }

  const INITIAL_PANE := Pane(0, 0)

  /** `scroll_up`: saturating. */
  function PaneUp(p: Pane, amount: nat): (r: Pane)
    ensures r.maxPosition == p.maxPosition && r.position <= p.position
    ensures r.position == if amount <= p.position then p.position - amount else 0
  {
    p.(position := if amount <= p.position then p.position - amount else 0)
  }

  /** `scroll_down`: clamped at the maximum. */
  function PaneDown(p: Pane, amount: nat): (r: Pane)
    ensures r.maxPosition == p.maxPosition && r.position <= p.maxPosition
    ensures r.position == p.maxPosition || r.position == p.position + amount
  {
    p.(position := if p.position + amount < p.maxPosition then p.position + amount else p.maxPosition)
  }

  /** `scroll_to_bottom`. */
  function PaneToBottom(p: Pane): (r: Pane)
    ensures r.position == r.maxPosition == p.maxPosition
  {
    p.(position := p.maxPosition)
  }

  /**
   * `update_max`: the maximum becomes the lines that do not fit the
   * viewport, and the position is pulled back within it.
   */
  function UpdateMax(p: Pane, contentLines: nat, viewportHeight: nat): (r: Pane)
    ensures r.maxPosition == if contentLines > viewportHeight then contentLines - viewportHeight else 0
    ensures InRange(r)
    ensures r.position == if p.position <= r.maxPosition then p.position else r.maxPosition
  {
    if contentLines > viewportHeight then
      var max := contentLines - viewportHeight;
      Pane(if p.position > max then max else p.position, max)
    else Pane(0, 0)
  }

  /** Every pane operation keeps a pane in range. */
  lemma PaneOpsKeepRange(p: Pane, amount: nat)
    requires InRange(p)
    ensures InRange(PaneUp(p, amount)) && InRange(PaneDown(p, amount)) && InRange(PaneToBottom(p))
  {
  }

  /** Updating the maximum twice with the same sizes is updating it once. */
  lemma UpdateMaxIdempotent(p: Pane, contentLines: nat, viewportHeight: nat)
    ensures UpdateMax(UpdateMax(p, contentLines, viewportHeight), contentLines, viewportHeight)
         == UpdateMax(p, contentLines, viewportHeight)
  {
  }

  class ScrollState {
    var position: nat
    var maxPosition: nat

    function View(): Pane
      reads this
    {
      Pane(position, maxPosition)
    }

    constructor ()
      ensures View() == INITIAL_PANE
    {
      position := 0;
      maxPosition := 0;
    }

    method Reset()
      modifies this
      ensures View() == INITIAL_PANE
    {
      position := 0;
      maxPosition := 0;
    }

    method ScrollUp(amount: nat)
      modifies this
      ensures View() == PaneUp(old(View()), amount)
    {
      position := if amount <= position then position - amount else 0;
    }

    method ScrollDown(amount: nat)
      modifies this
      ensures View() == PaneDown(old(View()), amount)
    {
      position := if position + amount < maxPosition then position + amount else maxPosition;
    }

    method ScrollToBottom()
      modifies this
      ensures View() == PaneToBottom(old(View()))
    {
      position := maxPosition;
    }

    method UpdateMaxFor(contentLines: nat, viewportHeight: nat)
      modifies this
      ensures View() == UpdateMax(old(View()), contentLines, viewportHeight)
    {
      if contentLines > viewportHeight {
        maxPosition := contentLines - viewportHeight;
        if position > maxPosition {
          position := maxPosition;
        }
      } else {
        maxPosition := 0;
        position := 0;
      }
    }
  }

  /** `next_tab`: with two tabs, a toggle. */
  function Toggle(t: Tab): (r: Tab)
    ensures r != t
  {
    match t
    case Output => Logs
    case Logs => Output
  }

  /** Toggling twice comes back, so `prev_tab` (the same toggle) undoes `next_tab`. */
  lemma ToggleTwice(t: Tab)
    ensures Toggle(Toggle(t)) == t
  {
  }

  /** `String::pop`: drops the last character, if any. */
  function PopChar(s: string): (r: string)
    ensures s == [] ==> r == []
    ensures s != [] ==> r + [s[|s| - 1]] == s
  {
    if s == [] then [] else s[..|s| - 1]
  }

  /** A backspace undoes the character just typed. */
  lemma PopUndoesPush(s: string, c: char)
    ensures PopChar(s + [c]) == s
  {
    assert (s + [c])[..|s|] == s;
  }

  datatype ErrorDisplay = ErrorDisplay(title: string, message: string, details: string)

  /** Everything a `TuiState` holds, as one value. */
  datatype TuiView = TuiView(
    outputBuffer: seq<string>,
    logBuffer: seq<string>,
    inputBuffer: string,
    scroll: Pane,
    logScroll: Pane,
    selectedTab: Tab,
    showHelp: bool,
    errorMessage: Option<ErrorDisplay>)

  /** The log buffer stays within capacity and both panes stay in range. */
  predicate ViewValid(v: TuiView)
  {
    |v.logBuffer| <= LOG_CAPACITY && InRange(v.scroll) && InRange(v.logScroll)
  }

  /** The state of `TuiState::new`: empty buffers, the output tab, nothing shown over it. */
  const INITIAL_VIEW := TuiView([], [], [], INITIAL_PANE, INITIAL_PANE, Output, false, None)

  /** Input may be edited only with no error shown and help hidden. */
  function CanEditInput(v: TuiView): (r: bool)
    ensures r <==> v.errorMessage.None? && !v.showHelp
  {
    v.errorMessage.None? && !v.showHelp
  }

  class TuiState {
    var outputBuffer: seq<string>
    var logBuffer: seq<string>
    var inputBuffer: string
    var scroll: Pane
    var logScroll: Pane
    var selectedTab: Tab
    var showHelp: bool
    var errorMessage: Option<ErrorDisplay>

    function View(): TuiView
      reads this
    {
      TuiView(outputBuffer, logBuffer, inputBuffer, scroll, logScroll, selectedTab, showHelp, errorMessage)
    }

    predicate Valid()
      reads this
    {
      ViewValid(View())
    }

    constructor ()
      ensures Valid() && View() == INITIAL_VIEW
    {
      outputBuffer := [];
      logBuffer := [];
      inputBuffer := [];
      scroll := INITIAL_PANE;
      logScroll := INITIAL_PANE;
      selectedTab := Output;
      showHelp := false;
      errorMessage := None;
    }

    /** New output is appended and the output pane jumps to its bottom. */
    method AppendOutput(text: string)
      requires Valid()
      modifies this
      ensures Valid()
      ensures View() == old(View()).(outputBuffer := old(outputBuffer) + [text], scroll := PaneToBottom(old(scroll)))
    {
      outputBuffer := outputBuffer + [text];
      scroll := PaneToBottom(scroll);
    }

    /** The oldest log line is dropped when the buffer is full. */
    method AppendLog(text: string)
      requires Valid()
      modifies this
      ensures Valid()
      ensures View() == old(View()).(logBuffer := BoundedQueue.Last(old(logBuffer) + [text], LOG_CAPACITY))
    {
      BoundedQueue.PushKeepsNewest(logBuffer, text, LOG_CAPACITY);
      logBuffer := BoundedQueue.PushBounded(logBuffer, text, LOG_CAPACITY);
    }

    method ClearOutput()
      requires Valid()
      modifies this
      ensures Valid()
      ensures View() == old(View()).(outputBuffer := [], scroll := INITIAL_PANE)
    {
      outputBuffer := [];
      scroll := INITIAL_PANE;
    }

    method ClearLogs()
      requires Valid()
      modifies this
      ensures Valid()
      ensures View() == old(View()).(logBuffer := [], logScroll := INITIAL_PANE)
    {
      logBuffer := [];
      logScroll := INITIAL_PANE;
    }

    method ShowError(title: string, message: string, details: string)
      requires Valid()
      modifies this
      ensures Valid()
      ensures View() == old(View()).(errorMessage := Some(ErrorDisplay(title, message, details)))
    {
      errorMessage := Some(ErrorDisplay(title, message, details));
    }

    method DismissError()
      requires Valid()
      modifies this
      ensures Valid()
      ensures View() == old(View()).(errorMessage := None)
    {
      errorMessage := None;
    }

    method ToggleHelp()
      requires Valid()
      modifies this
      ensures Valid()
      ensures View() == old(View()).(showHelp := !old(showHelp))
    {
      showHelp := !showHelp;
    }

    method SwitchTab(tab: Tab)
      requires Valid()
      modifies this
      ensures Valid()
      ensures View() == old(View()).(selectedTab := tab)
    {
      selectedTab := tab;
    }

    method NextTab()
      requires Valid()
      modifies this
      ensures Valid()
      ensures View() == old(View()).(selectedTab := Toggle(old(selectedTab)))
    {
      selectedTab := match selectedTab
        case Output => Logs
        case Logs => Output;
    }

    /** With only two tabs, the previous tab is the next one. */
    method PrevTab()
      requires Valid()
      modifies this
      ensures Valid()
      ensures View() == old(View()).(selectedTab := Toggle(old(selectedTab)))
    {
      NextTab();
    }

    /** Typing adds a character only with no error shown and help hidden. */
    method HandleInputChar(c: char)
      requires Valid()
      modifies this
      ensures Valid()
      ensures View() == if CanEditInput(old(View())) then old(View()).(inputBuffer := old(inputBuffer) + [c]) else old(View())
    {
      if CanEditInput(View()) {
        inputBuffer := inputBuffer + [c];
      }
    }

    /** A backspace drops a character only with no error shown and help hidden. */
    method HandleBackspace()
      requires Valid()
      modifies this
      ensures Valid()
      ensures View() == if CanEditInput(old(View())) then old(View()).(inputBuffer := PopChar(old(inputBuffer))) else old(View())
    {
      if CanEditInput(View()) {
        inputBuffer := PopChar(inputBuffer);
      }
    }

    method ClearInput()
      requires Valid()
      modifies this
      ensures Valid()
      ensures View() == old(View()).(inputBuffer := [])
    {
      inputBuffer := [];
    }

    /** The typed line is handed over and the input is left empty. */
    method TakeInput() returns (input: string)
      requires Valid()
      modifies this
      ensures Valid()
      ensures input == old(inputBuffer) && View() == old(View()).(inputBuffer := [])
    {
      input := inputBuffer;
      inputBuffer := [];
    }
  }
}
