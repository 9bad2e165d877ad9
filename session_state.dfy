/**
 * The lifecycle of one executor session
 * (crates/orchestrator-core/src/session/state.rs).
 */
module SessionLifecycle {
  import opened StrUtil

  datatype SessionFailureReason = UserCancelled | ExecutorCrashed | NetworkError | Timeout | Unknown

  datatype SessionState = Idle | Running | Paused | Completed | Failed(reason: SessionFailureReason)

  function ReasonText(r: SessionFailureReason): string
  {
    match r
    case UserCancelled => "User cancelled"
    case ExecutorCrashed => "Executor crashed"
    case NetworkError => "Network error"
    case Timeout => "Timeout"
    case Unknown => "Unknown error"
  }

  /** The `Display` text of a state. */
  function StateText(s: SessionState): string
  {
    match s
    case Idle => "Idle"
    case Running => "Running"
    case Paused => "Paused"
    case Completed => "Completed"
    case Failed(r) => "Failed: " + ReasonText(r)
  }

  /** The allowed moves: Idle starts, Running pauses or ends, Paused resumes or ends. */
  predicate CanTransition(from: SessionState, to: SessionState)
  {
    match (from, to)
    case (Idle, Running) => true
    case (Running, Paused) => true
    case (Running, Completed) => true
    case (Running, Failed(_)) => true
    case (Paused, Running) => true
    case (Paused, Completed) => true
    case (Paused, Failed(_)) => true
    case _ => false
  }

  /** Completed and Failed are final, nothing leads back to Idle, and no state moves to itself. */
  lemma TransitionShape(from: SessionState, to: SessionState)
    ensures (from.Completed? || from.Failed?) ==> !CanTransition(from, to)
    ensures CanTransition(from, to) ==> to != Idle && to != from
    ensures from == Idle ==> (CanTransition(from, to) <==> to == Running)
  {
  }

  /** Each state applied in turn from `start`, as long as every move is allowed. */
  predicate Allowed(start: SessionState, path: seq<SessionState>)
    decreases |path|
  {
    path == [] || (CanTransition(start, path[0]) && Allowed(path[0], path[1..]))
  }

  /** Without `reset`, a session never returns to Idle and never leaves Completed or Failed. */
  lemma {:induction false} NoWayBack(start: SessionState, path: seq<SessionState>)
    requires Allowed(start, path)
    ensures forall i :: 0 <= i < |path| ==> path[i] != Idle
    ensures (start.Completed? || start.Failed?) ==> path == []
    decreases |path|
  {
    if path != [] {
      TransitionShape(start, path[0]);
      NoWayBack(path[0], path[1..]);
      assert forall i :: 1 <= i < |path| ==> path[i] == path[1..][i - 1];
    }
  }

  function InvalidTransitionText(from: SessionState, to: SessionState): string
  {
    "Invalid state transition from " + StateText(from) + " to " + StateText(to)
  }

  class SessionStateMachine {
    var currentState: SessionState

    /** A new machine is Idle. */
    constructor()
      ensures currentState == Idle
    {
      currentState := Idle;
    }

    method CanTransitionTo(newState: SessionState) returns (ok: bool)
      ensures ok == CanTransition(currentState, newState)
    {
      ok := CanTransition(currentState, newState);
    }

    /** `transition_to`: an allowed move changes the state; a refused one reports it and changes nothing. */
    method TransitionTo(newState: SessionState) returns (r: Result<()>)
      modifies this
      ensures r.Ok? <==> CanTransition(old(currentState), newState)
      ensures r.Ok? ==> currentState == newState
      ensures r.Err? ==> currentState == old(currentState) && r.error == InvalidTransitionText(old(currentState), newState)
    {
      if CanTransition(currentState, newState) {
        currentState := newState;
        r := Ok(());
      } else {
        r := Err(InvalidTransitionText(currentState, newState));
      }
    }

    method Start() returns (r: Result<()>)
      modifies this
      ensures r.Ok? <==> old(currentState) == Idle || old(currentState) == Paused
      ensures currentState == if r.Ok? then Running else old(currentState)
    {
      r := TransitionTo(Running);
    }

    method Pause() returns (r: Result<()>)
      modifies this
      ensures r.Ok? <==> old(currentState) == Running
      ensures currentState == if r.Ok? then Paused else old(currentState)
    {
      r := TransitionTo(Paused);
    }

    /** `resume` succeeds only from Paused. */
    method Resume() returns (r: Result<()>)
      modifies this
      ensures r.Ok? <==> old(currentState) == Paused
      ensures currentState == if r.Ok? then Running else old(currentState)
      ensures old(currentState) != Paused ==> r == Err("Cannot resume from state: " + StateText(old(currentState)))
    {
      if currentState == Paused {
        r := TransitionTo(Running);
      } else {
        r := Err("Cannot resume from state: " + StateText(currentState));
      }
    }

    method Complete() returns (r: Result<()>)
      modifies this
      ensures r.Ok? <==> old(currentState) == Running || old(currentState) == Paused
      ensures currentState == if r.Ok? then Completed else old(currentState)
    {
      r := TransitionTo(Completed);
    }

    method Fail(reason: SessionFailureReason) returns (r: Result<()>)
      modifies this
      ensures r.Ok? <==> old(currentState) == Running || old(currentState) == Paused
      ensures currentState == if r.Ok? then Failed(reason) else old(currentState)
    {
      r := TransitionTo(Failed(reason));
    }

    /** `reset` is the only way back to Idle, from anywhere. */
    method Reset()
      modifies this
      ensures currentState == Idle
    {
      currentState := Idle;
    }
  }
}
