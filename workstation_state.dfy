/**
 * The workstation state machine of the orchestrator core
 * (crates/orchestrator-core/src/state.rs): Idle, awaiting confirmation of
 * an executor launch, or running one. The clock and the random bytes of a
 * session id are parameters.
 */
module WorkstationStates {
  import opened StrUtil

  datatype ExecutionState =
    | AwaitingConfirmation(prompt: string, confirmationId: string, executorType: string)
    | Running(sessionId: string, executorType: string, prompt: string, startedAt: nat)

  datatype WorkstationState = Idle | Executing(exec: ExecutionState)

  datatype StateEvent =
    | RequestExecution(prompt: string, executorType: string)
    | ConfirmExecution(confirmationId: string)
    | DeclineExecution(confirmationId: string)
    | ExecutionStarted(sessionId: string)
    | ExecutionCompleted(sessionId: string)
    | ExecutionFailed(sessionId: string, error: string)

  datatype TransitionResult =
    | Success(oldState: WorkstationState, newState: WorkstationState)
    | InvalidTransition(currentState: WorkstationState, event: StateEvent)
    | Error(message: string)

  /** What the outside world supplies to one transition: the clock in milliseconds and since the epoch, and a fresh session id. */
  datatype Environment = Environment(nowMillis: nat, now: nat, sessionId: string)

  function ConfirmationIdAt(millis: nat): (id: string)
    ensures StartsWith(id, "confirm_") && id[8..] == NatToString(millis)
  {
    "confirm_" + NatToString(millis)
  }

  function MismatchText(expected: string, got: string): string
  {
    "Confirmation ID mismatch: expected " + expected + ", got " + got
  }

  /** `transition`: the state after `event` and the reported result. */
  function Step(state: WorkstationState, event: StateEvent, env: Environment): (r: (WorkstationState, TransitionResult))
    ensures r.1.Success? ==> r.1.oldState == state && r.1.newState == r.0
    ensures !r.1.Success? ==> r.0 == state
  {
    match (state, event)
    case (Idle, RequestExecution(prompt, executorType)) =>
      var next := Executing(AwaitingConfirmation(prompt, ConfirmationIdAt(env.nowMillis), executorType));
      (next, Success(state, next))
    case (Executing(AwaitingConfirmation(prompt, confirmationId, executorType)), ConfirmExecution(confirmId)) =>
      if confirmId != confirmationId then (state, Error(MismatchText(confirmationId, confirmId)))
      else
        var next := Executing(Running(env.sessionId, executorType, prompt, env.now));
        (next, Success(state, next))
    case (Executing(AwaitingConfirmation(_, _, _)), DeclineExecution(_)) => (Idle, Success(state, Idle))
    case (Executing(Running(_, _, _, _)), ExecutionCompleted(_)) => (Idle, Success(state, Idle))
    case (Executing(Running(_, _, _, _)), ExecutionFailed(_, _)) => (Idle, Success(state, Idle))
    case _ => (state, InvalidTransition(state, event))
  }

  /** A request from Idle awaits confirmation of the same prompt and executor, under an id taken from the clock. */
  lemma RequestAwaitsConfirmation(prompt: string, executorType: string, env: Environment)
    ensures Step(Idle, RequestExecution(prompt, executorType), env).0
         == Executing(AwaitingConfirmation(prompt, ConfirmationIdAt(env.nowMillis), executorType))
  {
  }

  /** Confirming with the awaited id starts the run, keeping prompt and executor; any other id is an error that changes nothing. */
  lemma ConfirmChecksId(prompt: string, id: string, executorType: string, confirmId: string, env: Environment)
    ensures var r := Step(Executing(AwaitingConfirmation(prompt, id, executorType)), ConfirmExecution(confirmId), env);
      if confirmId == id then r.0 == Executing(Running(env.sessionId, executorType, prompt, env.now)) && r.1.Success?
      else r.0 == Executing(AwaitingConfirmation(prompt, id, executorType)) && r.1 == Error(MismatchText(id, confirmId))
  {
  }

  /** A decline returns to Idle whatever id it carries. */
  lemma DeclineReturnsToIdle(prompt: string, id: string, executorType: string, declineId: string, env: Environment)
    ensures Step(Executing(AwaitingConfirmation(prompt, id, executorType)), DeclineExecution(declineId), env) ==
      (Idle, Success(Executing(AwaitingConfirmation(prompt, id, executorType)), Idle))
  {
  }

  /** A run that completes or fails returns to Idle. */
  lemma RunEndsInIdle(run: ExecutionState, event: StateEvent, env: Environment)
    requires run.Running?
    requires event.ExecutionCompleted? || event.ExecutionFailed?
    ensures Step(Executing(run), event, env) == (Idle, Success(Executing(run), Idle))
  {
  }

  /** Every other pair is refused and leaves the state as it was. */
  lemma OtherPairsInvalid(state: WorkstationState, event: StateEvent, env: Environment)
    requires !(state.Idle? && event.RequestExecution?)
    requires !(state.Executing? && state.exec.AwaitingConfirmation? && (event.ConfirmExecution? || event.DeclineExecution?))
    requires !(state.Executing? && state.exec.Running? && (event.ExecutionCompleted? || event.ExecutionFailed?))
    ensures Step(state, event, env) == (state, InvalidTransition(state, event))
  {
  }

  /** The flow of the source's own test: request, confirm with the issued id, complete. */
  lemma ExecutionFlow(prompt: string, executorType: string, e1: Environment, e2: Environment, e3: Environment, done: string)
    ensures var s1 := Step(Idle, RequestExecution(prompt, executorType), e1).0;
      s1.Executing? && s1.exec.AwaitingConfirmation? &&
      var s2 := Step(s1, ConfirmExecution(s1.exec.confirmationId), e2).0;
      s2 == Executing(Running(e2.sessionId, executorType, prompt, e2.now)) &&
      Step(s2, ExecutionCompleted(done), e3) == (Idle, Success(s2, Idle))
  {
  }

  /** One random byte becomes a character of [0-9a-z]. */
  function SuffixChar(b: nat): (c: char)
    requires b < 256
    ensures '0' <= c <= '9' || 'a' <= c <= 'z'
  {
    var n := b % 36;
    if n < 10 then ('0' as int + n) as char else ('a' as int + n - 10) as char
  }

  /** Every character of [0-9a-z] is drawn by some byte. */
  lemma SuffixCharOnto(c: char)
    requires '0' <= c <= '9' || 'a' <= c <= 'z'
    ensures exists b :: 0 <= b < 256 && SuffixChar(b) == c
  {
    if c <= '9' {
      assert SuffixChar(c as int - '0' as int) == c;
    } else {
      assert SuffixChar(c as int - 'a' as int + 10) == c;
    }
  }

  /** `generate_session_id`: the formatted timestamp, '_', and six characters of [0-9a-z]. */
  function GenerateSessionId(timestamp: string, randomBytes: seq<nat>): (id: string)
    requires |randomBytes| == 6 && forall i :: 0 <= i < 6 ==> randomBytes[i] < 256
    ensures |id| == |timestamp| + 7 && id[..|timestamp|] == timestamp && id[|timestamp|] == '_'
    ensures forall i :: |timestamp| < i < |id| ==> '0' <= id[i] <= '9' || 'a' <= id[i] <= 'z'
  {
    timestamp + "_" + seq(6, i requires 0 <= i < 6 => SuffixChar(randomBytes[i]))
  }

  /** A listener call `on_state_change(old, new)`, recorded in call order. */
  datatype Notification = Notification(listener: nat, oldState: WorkstationState, newState: WorkstationState)

  function Notifications(listeners: seq<nat>, oldState: WorkstationState, newState: WorkstationState): (ns: seq<Notification>)
    ensures |ns| == |listeners|
    ensures forall i :: 0 <= i < |ns| ==> ns[i] == Notification(listeners[i], oldState, newState)
  {
    seq(|listeners|, i requires 0 <= i < |listeners| => Notification(listeners[i], oldState, newState))
  }

  class StateManager {
    var state: WorkstationState
    var listeners: seq<nat>
    var notified: seq<Notification>

    constructor()
      ensures state == Idle && listeners == [] && notified == []
    {
      state := Idle;
      listeners := [];
      notified := [];
    }

    method GetState() returns (s: WorkstationState)
      ensures s == state
    {
      s := state;
    }

    method AddListener(listener: nat)
      modifies this
      ensures listeners == old(listeners) + [listener]
      ensures state == old(state) && notified == old(notified)
    {
      listeners := listeners + [listener];
    }

    /** `handle_event`: apply the transition; only a success is announced, to every listener in order. */
    method HandleEvent(event: StateEvent, env: Environment) returns (r: TransitionResult)
      modifies this
      ensures (state, r) == Step(old(state), event, env)
      ensures listeners == old(listeners)
      ensures notified == old(notified) + (if r.Success? then Notifications(listeners, old(state), state) else [])
    {
      var oldState := state;
      var next;
      next, r := Step(state, event, env).0, Step(state, event, env).1;
      state := next;
      if r.Success? {
        var i := 0;
        while i < |listeners|
          invariant 0 <= i <= |listeners|
          invariant state == next && listeners == old(listeners)
          invariant notified == old(notified) + Notifications(listeners[..i], oldState, r.newState)
        {
          notified := notified + [Notification(listeners[i], oldState, r.newState)];
          i := i + 1;
          assert listeners[..i] == listeners[..i - 1] + [listeners[i - 1]];
        }
        assert listeners[..i] == listeners;
      }
    }
  }
}
