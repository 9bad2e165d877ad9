/**
 * The small mutable state records of the orchestrator's terminal app
 * (crates/orchestrator/src/types.rs): the scroll position of a pane, the
 * recording indicator and the pending plan. Each record is a class whose
 * methods are specified by a pure function on its value.
 */
module OrchestratorTypes {
  import opened StrUtil

  /** The value of a `ScrollState`: the offset from the top and whether the pane follows new lines. */
  datatype Scroll = Scroll(offset: nat, autoScroll: bool)

  /** `ScrollState::new`. */
  const INITIAL_SCROLL := Scroll(0, true)

  /** `scroll_up`: saturating move up; the pane stops following. */
  function ScrollUp(s: Scroll, amount: nat): (r: Scroll)
    ensures r.offset <= s.offset && !r.autoScroll
    ensures r.offset == if amount <= s.offset then s.offset - amount else 0
  {
    Scroll(if amount <= s.offset then s.offset - amount else 0, false)
  }

  /** `scroll_down`: move down, clamped at `max`; reaching the bottom turns following back on. */
  function ScrollDown(s: Scroll, amount: nat, max: nat): (r: Scroll)
    ensures r.offset <= max
    ensures r.offset == max || r.offset == s.offset + amount
    ensures r.autoScroll <==> s.autoScroll || r.offset == max
  {
    var offset := if s.offset + amount < max then s.offset + amount else max;
    Scroll(offset, if offset >= max then true else s.autoScroll)
  }

  /** `scroll_to_bottom`. */
  function ScrollToBottom(max: nat): (r: Scroll)
    ensures r.offset == max && r.autoScroll
  {
    Scroll(max, true)
  }

  /** Scrolling down then up by the same amount comes back, as long as the bottom was not hit. */
  lemma DownThenUp(s: Scroll, amount: nat, max: nat)
    requires s.offset + amount < max
    ensures ScrollUp(ScrollDown(s, amount, max), amount).offset == s.offset
  {
  }

  /** Scrolling down never moves up while the offset is within range, and scrolling up never moves down. */
  lemma ScrollMonotone(s: Scroll, amount: nat, max: nat)
    requires s.offset <= max
    ensures s.offset <= ScrollDown(s, amount, max).offset
    ensures ScrollUp(s, amount).offset <= s.offset
  {
  }

  /** A pane whose offset is within range stays within range however it is scrolled. */
  lemma ScrollStaysInRange(s: Scroll, amount: nat, max: nat)
    requires s.offset <= max
    ensures ScrollUp(s, amount).offset <= max && ScrollDown(s, amount, max).offset <= max
  {
  }

  class ScrollState {
    var offset: nat
    var autoScroll: bool

    function View(): Scroll
      reads this
    {
      Scroll(offset, autoScroll)
    }

    constructor ()
      ensures View() == INITIAL_SCROLL
    {
      offset := 0;
      autoScroll := true;
    }

    method ScrollUpBy(amount: nat)
      modifies this
      ensures View() == ScrollUp(old(View()), amount)
    {
      offset := if amount <= offset then offset - amount else 0;
      autoScroll := false;
    }

    method ScrollDownBy(amount: nat, max: nat)
      modifies this
      ensures View() == ScrollDown(old(View()), amount, max)
    {
      offset := if offset + amount < max then offset + amount else max;
      if offset >= max {
        autoScroll := true;
      }
    }

    method ScrollToBottomAt(max: nat)
      modifies this
      ensures View() == ScrollToBottom(max)
    {
      offset := max;
      autoScroll := true;
    }

    /** `page_up` is `scroll_up` by a page. */
    method PageUp(pageSize: nat)
      modifies this
      ensures View() == ScrollUp(old(View()), pageSize)
    {
      ScrollUpBy(pageSize);
    }

    /** `page_down` is `scroll_down` by a page. */
    method PageDown(pageSize: nat, max: nat)
      modifies this
      ensures View() == ScrollDown(old(View()), pageSize, max)
    {
      ScrollDownBy(pageSize, max);
    }
  }

  /**
   * The recording indicator. The clock is a parameter: instants are
   * seconds since an arbitrary origin. `blink_state` and `last_blink` only
   * drive the display and are left out.
   */
  class RecordingState {
    var isActive: bool
    var startedAt: Option<nat>

    constructor ()
      ensures !isActive && startedAt == None
    {
      isActive := false;
      startedAt := None;
    }

    method Start(now: nat)
      modifies this
      ensures isActive && startedAt == Some(now)
    {
      isActive := true;
      startedAt := Some(now);
    }

    method Stop()
      modifies this
      ensures !isActive && startedAt == None
    {
      isActive := false;
      startedAt := None;
    }

    /** Whole seconds since the start, or 0 when not recording. */
    function ElapsedSeconds(now: nat): (secs: nat)
      reads this
      ensures startedAt == None ==> secs == 0
      ensures startedAt.Some? && startedAt.value <= now ==> secs == now - startedAt.value
    {
      match startedAt
      case None => 0
      case Some(start) => if start <= now then now - start else 0
    }
  }

  /** The plan awaiting approval: its JSON and its first command. */
  class PlanState {
    var json: Option<string>
    var command: Option<string>

    constructor ()
      ensures json == None && command == None
    {
      json := None;
      command := None;
    }

    method Clear()
      modifies this
      ensures json == None && command == None
    {
      json := None;
      command := None;
    }

    /** A plan is pending exactly when its JSON is present. */
    function IsPending(): (r: bool)
      reads this
      ensures r <==> json.Some?
    {
      json.Some?
    }
  }
}
