/**
 * The single-threaded action queue of the voice orchestrator
 * (src/orchestrator.rs). Actions run in FIFO order; an interrupt clears
 * the queue. The artifact manager's answer, the clock and the random part
 * of a turn id are parameters.
 */
module ActionQueue {
  import opened StrUtil

  datatype Action =
    | Read(path: string)
    | Write(path: string, content: string)
    | Edit(path: string, patch: string)
    | ProcessArtifacts(transcript: string, reply: string)

  datatype OrchestratorState = Conversing | Executing | Completed

  function StateText(s: OrchestratorState): string
  {
    match s
    case Conversing => "conversing"
    case Executing => "executing"
    case Completed => "completed"
  }

  datatype TurnContext = TurnContext(turnId: string, startedAt: nat, transcript: Option<string>, reply: Option<string>)

  /** `{:04}`: at least four digits, zero-padded on the left. */
  function Pad4(n: nat): (r: string)
    ensures |r| >= 4 && AllDigits(r) && DigitsValue(r) == n
    ensures n < 10000 ==> |r| == 4
  {
    var d := NatToString(n);
    NatToStringShort(n);
    if |d| >= 4 then d
    else
      var zeros := seq(4 - |d|, _ => '0');
      ZerosPrefixValue(zeros, d);
      zeros + d
  }

  lemma {:induction false} ZerosPrefixValue(zeros: string, d: string)
    requires forall i :: 0 <= i < |zeros| ==> zeros[i] == '0'
    requires AllDigits(d)
    ensures AllDigits(zeros + d) && DigitsValue(zeros + d) == DigitsValue(d)
    decreases |zeros|
  {
    if zeros == [] {
      assert zeros + d == d;
    } else {
      assert zeros + d == ['0'] + (zeros[1..] + d);
      ZerosPrefixValue(zeros[1..], d);
      DigitsValueLeadingZero(zeros[1..] + d);
    }
  }

  lemma {:induction false} NatToStringShort(n: nat)
    ensures n < 100 ==> |NatToString(n)| <= 2
    ensures n < 1000 ==> |NatToString(n)| <= 3
    ensures n < 10000 ==> |NatToString(n)| <= 4
  {
    if n >= 10 {
      NatToStringShort(n / 10);
      assert |NatToString(n)| == |NatToString(n / 10)| + 1;
    }
  }

  /** The turn id: the formatted start time, '-', and the random number modulo 10000 as four digits. */
  function TurnId(timestamp: string, random: nat): (id: string)
    requires random < 0x1_0000
    ensures |id| == |timestamp| + 5 && id[..|timestamp|] == timestamp && id[|timestamp|] == '-'
    ensures AllDigits(id[|timestamp| + 1..]) && DigitsValue(id[|timestamp| + 1..]) == random % 10000
  {
    var id := timestamp + "-" + Pad4(random % 10000);
    assert id[|timestamp| + 1..] == Pad4(random % 10000);
    id
  }

  /** Queue tracing is on when the variable is "1" or "true" in any ASCII case. */
  function DebugEnabled(v: Option<string>): (on: bool)
    ensures on ==> v.Some? && |v.value| <= 4
    ensures on <==> v.Some? && (v.value == "1" || (|v.value| == 4 && forall i :: 0 <= i < 4 ==> LowerChar(v.value[i]) == "true"[i]))
  {
    v.Some? && (v.value == "1" || ToLower(v.value) == "true")
  }

  /** The observable state of the orchestrator. */
  datatype Orch = Orch(state: OrchestratorState, queue: seq<Action>, interrupt: bool, turn: Option<TurnContext>)

  /** `enqueue`: refused while an interrupt is pending, otherwise appended at the back. */
  function EnqueueStep(o: Orch, a: Action): (r: (Orch, Result<()>))
    ensures r.1.Err? <==> o.interrupt
    ensures r.1.Err? ==> r.0 == o
    ensures r.1.Ok? ==> r.0.queue == o.queue + [a] && r.0.state == o.state
  {
    if o.interrupt then (o, Err("Orchestrator interrupted"))
    else (o.(queue := o.queue + [a]), Ok(()))
  }

  /** The artifact outcome of processing a turn: no manager, a failure (logged, giving none), or the manager's outcome. */
  datatype ManagerAnswer = NoManager | Failed | Processed(outcome: Option<nat>)

  function OutcomeOf(m: ManagerAnswer): Option<nat>
  {
    if m.Processed? then m.outcome else None
  }

  /**
   * `execute_next`: an interrupt clears the queue and returns to
   * conversing; nothing runs while executing; an empty queue turns
   * Completed into Conversing; otherwise the oldest action runs and the
   * state becomes Completed. The result is the action run, if any, and
   * its artifact outcome.
   */
  function ExecuteNextStep(o: Orch, m: ManagerAnswer): (r: (Orch, Option<(Action, Option<nat>)>))
    ensures o.interrupt ==> r.0 == Orch(Conversing, [], false, o.turn) && r.1.None?
    ensures r.1.Some? <==> !o.interrupt && o.state != Executing && o.queue != []
    ensures r.1.Some? ==> r.1.value.0 == o.queue[0] && r.0.queue == o.queue[1..] && r.0.state == Completed
    ensures r.1.None? && !o.interrupt ==> r.0.queue == o.queue
  {
    if o.interrupt then (Orch(Conversing, [], false, o.turn), None)
    else if o.state == Executing then (o, None)
    else if o.queue == [] then (if o.state == Completed then o.(state := Conversing) else o, None)
    else
      var action := o.queue[0];
      var turn := match action
        case ProcessArtifacts(t, rep) =>
          if o.turn.Some? then Some(o.turn.value.(transcript := Some(t), reply := Some(rep))) else None
        case _ => o.turn;
      var outcome := if action.ProcessArtifacts? then OutcomeOf(m) else None;
      (Orch(Completed, o.queue[1..], false, turn), Some((action, outcome)))
  }

  /** Runs `ExecuteNextStep` `n` times; returns the final state and the actions run, in order. */
  function Drain(o: Orch, n: nat, m: ManagerAnswer): (Orch, seq<Action>)
    decreases n
  {
    if n == 0 then (o, [])
    else
      var (o1, ran) := ExecuteNextStep(o, m);
      var (o2, rest) := Drain(o1, n - 1, m);
      (o2, (if ran.Some? then [ran.value.0] else []) + rest)
  }

  /** Without an interrupt, the queue runs in the order it was filled. */
  lemma {:induction false} DrainIsFifo(o: Orch, n: nat, m: ManagerAnswer)
    requires !o.interrupt && o.state != Executing && n <= |o.queue|
    ensures Drain(o, n, m).1 == o.queue[..n]
    ensures Drain(o, n, m).0.queue == o.queue[n..]
    decreases n
  {
    if n > 0 {
      var o1 := ExecuteNextStep(o, m).0;
      DrainIsFifo(o1, n - 1, m);
      assert o.queue[..n] == [o.queue[0]] + o.queue[1..][..n - 1];
      assert o.queue[1..][n - 1..] == o.queue[n..];
    }
  }

  /** Whatever was enqueued, an interrupt empties the queue at the next step and clears the flag. */
  lemma InterruptClears(o: Orch, a: Action, m: ManagerAnswer)
    ensures var o1 := ExecuteNextStep(o.(interrupt := true), m).0;
      o1.queue == [] && !o1.interrupt && o1.state == Conversing && EnqueueStep(o1, a).1.Ok?
  {
  }

  class Orchestrator {
    var state: OrchestratorState
    var actionQueue: seq<Action>
    var interrupted: bool
    var currentTurn: Option<TurnContext>

    constructor()
      ensures state == Conversing && actionQueue == [] && !interrupted && currentTurn.None?
    {
      state := Conversing;
      actionQueue := [];
      interrupted := false;
      currentTurn := None;
    }

    function View(): Orch
      reads this
    {
      Orch(state, actionQueue, interrupted, currentTurn)
    }

    method BeginTurn(timestamp: string, now: nat, random: nat) returns (t: TurnContext)
      requires random < 0x1_0000
      modifies this
      ensures t == TurnContext(TurnId(timestamp, random), now, None, None)
      ensures currentTurn == Some(t)
      ensures state == old(state) && actionQueue == old(actionQueue) && interrupted == old(interrupted)
    {
      t := TurnContext(TurnId(timestamp, random), now, None, None);
      currentTurn := Some(t);
    }

    method Enqueue(a: Action) returns (r: Result<()>)
      modifies this
      ensures (View(), r) == EnqueueStep(old(View()), a)
    {
      if interrupted {
        r := Err("Orchestrator interrupted");
      } else {
        actionQueue := actionQueue + [a];
        r := Ok(());
      }
    }

    method ExecuteNext(m: ManagerAnswer) returns (result: Option<(Action, Option<nat>)>)
      modifies this
      ensures (View(), result) == ExecuteNextStep(old(View()), m)
    {
      if interrupted {
        actionQueue := [];
        interrupted := false;
        state := Conversing;
        return None;
      }
      if state == Executing {
        return None;
      }
      if actionQueue == [] {
        if state == Completed {
          state := Conversing;
        }
        return None;
      }
      var action := actionQueue[0];
      actionQueue := actionQueue[1..];
      state := Executing;
      var outcome: Option<nat> := None;
      if action.ProcessArtifacts? {
        if currentTurn.Some? {
          currentTurn := Some(currentTurn.value.(transcript := Some(action.transcript), reply := Some(action.reply)));
        }
        outcome := OutcomeOf(m);
      }
      state := Completed;
      result := Some((action, outcome));
    }

    /** `has_pending` holds exactly when `queue_size` is positive. */
    method HasPending() returns (b: bool)
      ensures b <==> |actionQueue| > 0
    {
      b := actionQueue != [];
    }

    method QueueSize() returns (n: nat)
      ensures n == |actionQueue|
    {
      n := |actionQueue|;
    }

    method Interrupt()
      modifies this
      ensures interrupted
      ensures state == old(state) && actionQueue == old(actionQueue) && currentTurn == old(currentTurn)
    {
      interrupted := true;
    }
  }
}
