/**
 * The event log of one orchestrator session
 * (crates/orchestrator-core/src/session/history.rs): a bounded deque of
 * timestamped events with queries over it. Timestamps come from the clock
 * and are parameters.
 */
module SessionEvents {
  import opened StrUtil
  import JsonValue
  import BoundedQueue

  /** `Default` capacity. */
  const DEFAULT_MAX_EVENTS: nat := 1000

  datatype SessionEventType =
    | Started
    | UserInput(input: string)
    | SystemResponse(response: string)
    | StateTransition(from: string, to: string)
    | ExecutorLaunched(executor: string)
    | ExecutorCompleted
    | Error(message: string)
    | Completed

  datatype SessionEvent = SessionEvent(timestamp: int, eventType: SessionEventType, metadata: Option<JsonValue.Value>)

  datatype SessionSummary = SessionSummary(
    startTime: Option<int>,
    endTime: Option<int>,
    totalEvents: nat,
    userInputCount: nat,
    systemResponseCount: nat,
    errorCount: nat,
    executorLaunches: nat)

  /** `get_events_since`: the events strictly after `since`, in order. */
  function Since(es: seq<SessionEvent>, since: int): (r: seq<SessionEvent>)
    ensures |r| <= |es|
    ensures forall e :: e in r <==> e in es && e.timestamp > since
    ensures (forall k :: 0 <= k < |es| ==> es[k].timestamp > since) ==> r == es
    decreases |es|
  {
    if es == [] then []
    else (if es[0].timestamp > since then [es[0]] else []) + Since(es[1..], since)
  }

  /**
   * The filter keeps order: the events after `since` of two stretches of
   * the log are those of the first, then those of the second.
   */
  lemma {:induction false} SinceAppend(a: seq<SessionEvent>, b: seq<SessionEvent>, since: int)
    ensures Since(a + b, since) == Since(a, since) + Since(b, since)
    decreases |a|
  {
    if a == [] {
      assert a + b == b;
    } else {
      assert (a + b)[0] == a[0] && (a + b)[1..] == a[1..] + b;
      SinceAppend(a[1..], b, since);
      var h := if a[0].timestamp > since then [a[0]] else [];
      ConcatAssoc(h, Since(a[1..], since), Since(b, since));
    }
  }

  /** `get_last_user_input`: the newest UserInput's text. */
  function LastUserInput(es: seq<SessionEvent>): (r: Option<string>)
    decreases |es|
  {
    if es == [] then None
    else if es[|es| - 1].eventType.UserInput? then Some(es[|es| - 1].eventType.input)
    else LastUserInput(es[..|es| - 1])
  }

  /** `es[i]` is a UserInput with no UserInput after it. */
  predicate NewestUserInputAt(es: seq<SessionEvent>, i: int)
  {
    0 <= i < |es| && es[i].eventType.UserInput? && forall j :: i < j < |es| ==> !es[j].eventType.UserInput?
  }

  /** The answer is the text of the newest UserInput, and None exactly when there is none. */
  lemma {:induction false} LastUserInputIsNewest(es: seq<SessionEvent>)
    ensures LastUserInput(es).None? <==> forall i :: 0 <= i < |es| ==> !es[i].eventType.UserInput?
    ensures LastUserInput(es).Some? ==> exists i :: NewestUserInputAt(es, i) && es[i].eventType.input == LastUserInput(es).value
    decreases |es|
  {
    if es != [] && !es[|es| - 1].eventType.UserInput? {
      var init := es[..|es| - 1];
      LastUserInputIsNewest(init);
      if LastUserInput(init).Some? {
        var i :| NewestUserInputAt(init, i) && init[i].eventType.input == LastUserInput(init).value;
        assert NewestUserInputAt(es, i);
      }
    }
  }

  /** The conversation entry an event contributes: user input marked true, a system response false. */
  function ConversationEntry(e: SessionEvent): seq<(string, bool)>
  {
    match e.eventType
    case UserInput(input) => [(input, true)]
    case SystemResponse(response) => [(response, false)]
    case _ => []
  }

  /** `get_conversation_history`: the user inputs and system responses, in order. */
  function Conversation(es: seq<SessionEvent>): seq<(string, bool)>
    decreases |es|
  {
    if es == [] then [] else Conversation(es[..|es| - 1]) + ConversationEntry(es[|es| - 1])
  }

  /** How many events satisfy each query of `to_summary`. */
  function CountUserInputs(es: seq<SessionEvent>): nat
    decreases |es|
  {
    if es == [] then 0 else CountUserInputs(es[..|es| - 1]) + (if es[|es| - 1].eventType.UserInput? then 1 else 0)
  }

  function CountResponses(es: seq<SessionEvent>): nat
    decreases |es|
  {
    if es == [] then 0 else CountResponses(es[..|es| - 1]) + (if es[|es| - 1].eventType.SystemResponse? then 1 else 0)
  }

  function CountErrors(es: seq<SessionEvent>): nat
    decreases |es|
  {
    if es == [] then 0 else CountErrors(es[..|es| - 1]) + (if es[|es| - 1].eventType.Error? then 1 else 0)
  }

  function CountLaunches(es: seq<SessionEvent>): nat
    decreases |es|
  {
    if es == [] then 0 else CountLaunches(es[..|es| - 1]) + (if es[|es| - 1].eventType.ExecutorLaunched? then 1 else 0)
  }

  /** `to_summary` as a function of the events. */
  function Summary(es: seq<SessionEvent>): SessionSummary
  {
    SessionSummary(
      if es == [] then None else Some(es[0].timestamp),
      if es == [] then None else Some(es[|es| - 1].timestamp),
      |es|, CountUserInputs(es), CountResponses(es), CountErrors(es), CountLaunches(es))
  }

  /**
   * The per-kind counts never add up to more than the events, and the
   * conversation holds exactly the user inputs and the system responses.
   */
  lemma {:induction false} CountsWithinTotal(es: seq<SessionEvent>)
    ensures CountUserInputs(es) + CountResponses(es) + CountErrors(es) + CountLaunches(es) <= |es|
    ensures |Conversation(es)| == CountUserInputs(es) + CountResponses(es)
    decreases |es|
  {
    if es != [] {
      CountsWithinTotal(es[..|es| - 1]);
    }
  }

  /** The conversation of a log followed by one more event. */
  lemma ConversationSnoc(es: seq<SessionEvent>, e: SessionEvent)
    ensures Conversation(es + [e]) == Conversation(es) + ConversationEntry(e)
  {
    assert (es + [e])[..|es|] == es;
  }

  /** One step of `get_conversation_history`'s loop: user inputs and system responses are kept. */
  method AppendTurn(history: seq<(string, bool)>, event: SessionEvent) returns (r: seq<(string, bool)>)
    ensures r == history + ConversationEntry(event)
  {
    r := history;
    match event.eventType {
      case UserInput(input) =>
        r := r + [(input, true)];
      case SystemResponse(response) =>
        r := r + [(response, false)];
      case _ =>
    }
  }

  class SessionHistory {
    var events: seq<SessionEvent>
    const maxEvents: nat

    predicate Valid()
      reads this
    {
      |events| <= BoundedQueue.Cap(maxEvents)
    }

    constructor (max: nat)
      ensures Valid() && events == [] && maxEvents == max
    {
      events := [];
      maxEvents := max;
    }

    /** At capacity the oldest event goes first; the log keeps the newest events in arrival order. */
    method AddEvent(eventType: SessionEventType, metadata: Option<JsonValue.Value>, now: int)
      requires Valid()
      modifies this
      ensures Valid()
      ensures events == BoundedQueue.Last(old(events) + [SessionEvent(now, eventType, metadata)], BoundedQueue.Cap(maxEvents))
    {
      var event := SessionEvent(now, eventType, metadata);
      BoundedQueue.PushKeepsNewest(events, event, maxEvents);
      events := BoundedQueue.PushBounded(events, event, maxEvents);
    }

    /** Every event held, oldest first: within capacity for a valid log. */
    function GetEvents(): (r: seq<SessionEvent>)
      reads this
      ensures Valid() ==> |r| <= BoundedQueue.Cap(maxEvents)
      ensures r == GetRecentEvents(|events|)
    {
      assert events[|events| - |events|..] == events;
      events
    }

    /** The last `count` events, in their original order. */
    function GetRecentEvents(count: nat): (r: seq<SessionEvent>)
      reads this
      ensures |r| == if count < |events| then count else |events|
      ensures r == events[|events| - |r|..]
    {
      BoundedQueue.Last(events, count)
    }

    /** The events stamped strictly after `since`, in their original order. */
    function GetEventsSince(since: int): (r: seq<SessionEvent>)
      reads this
      ensures |r| <= |events|
      ensures forall e :: e in r <==> e in events && e.timestamp > since
    {
      Since(events, since)
    }

    method Clear()
      modifies this
      ensures Valid() && events == []
    {
      events := [];
    }

    /** The number of events held, never past the capacity in a valid log. */
    function Len(): (n: nat)
      reads this
      ensures n == |events|
      ensures Valid() ==> n <= BoundedQueue.Cap(maxEvents)
    {
      |events|
    }

    /** An empty log holds no user input. */
    function IsEmpty(): (r: bool)
      reads this
      ensures r <==> Len() == 0
      ensures r ==> GetLastUserInput().None?
    {
      events == []
    }

    /** The newest user input's text, if any. */
    function GetLastUserInput(): (r: Option<string>)
      reads this
      ensures r.None? <==> forall i :: 0 <= i < |events| ==> !events[i].eventType.UserInput?
      ensures r.Some? ==> exists i :: NewestUserInputAt(events, i) && events[i].eventType.input == r.value
    {
      LastUserInputIsNewest(events);
      LastUserInput(events)
    }

    /** The loop of `get_conversation_history`. */
    method GetConversationHistory() returns (history: seq<(string, bool)>)
      ensures history == Conversation(events)
    {
      var es := events;
      history := [];
      var i := 0;
      while i < |es|
        invariant i <= |es|
        invariant history == Conversation(es[..i])
      {
        PrefixSnoc(es, i);
        ConversationSnoc(es[..i], es[i]);
        history := AppendTurn(history, es[i]);
        i := i + 1;
      }
      assert es[..i] == es;
    }

    /** The counting loop of `to_summary`. */
    method ToSummary() returns (summary: SessionSummary)
      ensures summary == Summary(events)
    {
      var userInputCount := 0;
      var systemResponseCount := 0;
      var errorCount := 0;
      var executorLaunches := 0;
      var i := 0;
      while i < |events|
        invariant i <= |events|
        invariant userInputCount == CountUserInputs(events[..i])
        invariant systemResponseCount == CountResponses(events[..i])
        invariant errorCount == CountErrors(events[..i])
        invariant executorLaunches == CountLaunches(events[..i])
      {
        assert events[..i + 1][..i] == events[..i];
        match events[i].eventType {
          case UserInput(_) => userInputCount := userInputCount + 1;
          case SystemResponse(_) => systemResponseCount := systemResponseCount + 1;
          case Error(_) => errorCount := errorCount + 1;
          case ExecutorLaunched(_) => executorLaunches := executorLaunches + 1;
          case _ =>
        }
        i := i + 1;
      }
      assert events[..i] == events;
      summary := SessionSummary(
        if events == [] then None else Some(events[0].timestamp),
        if events == [] then None else Some(events[|events| - 1].timestamp),
        |events|, userInputCount, systemResponseCount, errorCount, executorLaunches);
    }
  }
}
