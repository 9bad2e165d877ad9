/**
 * The headless orchestrator core (crates/orchestrator-core/src/lib.rs):
 * user text is routed, a launch may wait for a confirmation, and a
 * confirmation response launches or cancels it. The router's decision,
 * the clock and the executor's launch outcome are parameters; messages
 * sent outbound are recorded in order.
 */
module OrchestratorCoreModel {
  import opened StrUtil
  import WorkstationStates

  datatype RouteAction = LaunchClaude | CannotParse

  datatype RouteResponse = RouteResponse(action: RouteAction, prompt: Option<string>, reason: Option<string>)

  datatype PendingConfirmation = PendingConfirmation(id: string, prompt: string)

  /** The outbound messages the core emits. */
  datatype OutMessage =
    | Status(level: string, text: string)
    | PromptConfirmation(id: Option<string>, forKind: string, executor: string, prompt: string)

  /** Everything the core's handlers change: the pending slot, what was sent, what was launched. */
  datatype CoreState = CoreState(pending: Option<PendingConfirmation>, sent: seq<OutMessage>, launched: seq<string>)

  const EXECUTOR_LAUNCH := "executor_launch"
  const STARTED := Status("info", "executor started: Claude")
  const CANCELED := Status("info", "executor launch canceled")

  /** `handle_user_text`, given the router's answer, the clock and whether the executor launches. */
  function UserTextStep(s: CoreState, requireConfirmation: bool, text: string,
                        route: Result<RouteResponse>, nowMillis: nat, launchOk: bool): (r: (CoreState, Result<()>))
    ensures s.sent <= r.0.sent && s.launched <= r.0.launched && |r.0.launched| <= |s.launched| + 1
    ensures r.1.Err? <==> |r.0.launched| == |s.launched| + 1 && !launchOk
    ensures r.0.pending != s.pending ==> requireConfirmation && r.0.pending.Some? && |r.0.launched| == |s.launched|
  {
    if AllWhitespace(text) then (s, Ok(()))
    else if route.Err? then (s.(sent := s.sent + [Status("error", "router error: " + route.error)]), Ok(()))
    else DecisionStep(s, requireConfirmation, Trim(text), route.value, nowMillis, launchOk)
  }

  /** What the router's decision on the trimmed text does. */
  function DecisionStep(s: CoreState, requireConfirmation: bool, textTrim: string,
                        decision: RouteResponse, nowMillis: nat, launchOk: bool): (r: (CoreState, Result<()>))
  {
    match decision.action
    case CannotParse =>
      var reason := if decision.reason.Some? then decision.reason.value else "could not understand";
      (s.(sent := s.sent + [Status("info", reason)]), Ok(()))
    case LaunchClaude =>
      var prompt := if decision.prompt.Some? then decision.prompt.value else textTrim;
      if requireConfirmation then
        var id := WorkstationStates.ConfirmationIdAt(nowMillis);
        (s.(pending := Some(PendingConfirmation(id, prompt)),
            sent := s.sent + [PromptConfirmation(Some(id), EXECUTOR_LAUNCH, "Claude", prompt)]), Ok(()))
      else if !launchOk then (s.(launched := s.launched + [prompt]), Err("launch failed"))
      else (s.(launched := s.launched + [prompt], sent := s.sent + [STARTED]), Ok(()))
  }

  /** The pending entry a confirmation response takes: any, when it names no id, else only the matching one. */
  predicate Matches(pending: PendingConfirmation, id: Option<string>)
  {
    id.None? || id.value == pending.id
  }

  /** `handle_confirm`, given whether the executor launches. */
  function ConfirmStep(s: CoreState, forKind: string, id: Option<string>, accept: bool, launchOk: bool): (r: (CoreState, Result<()>))
    ensures s.sent <= r.0.sent && s.launched <= r.0.launched && |r.0.launched| <= |s.launched| + 1
    ensures r.1.Err? <==> |r.0.launched| == |s.launched| + 1 && !launchOk
    ensures |r.0.launched| == |s.launched| + 1 ==>
      accept && s.pending.Some? && r.0.launched[|s.launched|] == s.pending.value.prompt && r.0.pending.None?
    ensures r.0.pending.Some? ==> r.0.pending == s.pending
  {
    if forKind != EXECUTOR_LAUNCH then (s, Ok(()))
    else if s.pending.Some? && !Matches(s.pending.value, id) then (s, Ok(()))
    else
      var taken := s.pending;
      var s1 := s.(pending := None);
      if accept then
        if taken.None? then (s1, Ok(()))
        else if !launchOk then (s1.(launched := s1.launched + [taken.value.prompt]), Err("launch failed"))
        else (s1.(launched := s1.launched + [taken.value.prompt], sent := s1.sent + [STARTED]), Ok(()))
      else (s1.(sent := s1.sent + [CANCELED]), Ok(()))
  }

  /** Text that trims to nothing sends nothing, launches nothing and keeps the pending slot. */
  lemma BlankTextIgnored(s: CoreState, rc: bool, text: string, route: Result<RouteResponse>, now: nat, ok: bool)
    requires Trim(text) == []
    ensures UserTextStep(s, rc, text, route, now, ok) == (s, Ok(()))
  {
    TrimEmptyIffAllWhitespace(text);
  }

  /** An unparsable request emits exactly one info status carrying the router's reason, or a default. */
  lemma CannotParseReports(s: CoreState, rc: bool, text: string, reason: Option<string>, now: nat, ok: bool)
    requires !AllWhitespace(text)
    ensures var r := UserTextStep(s, rc, text, Ok(RouteResponse(CannotParse, None, reason)), now, ok);
      r.0 == s.(sent := s.sent + [Status("info", if reason.Some? then reason.value else "could not understand")])
  {
    TrimEmptyIffAllWhitespace(text);
    UserTextDecides(s, rc, text, RouteResponse(CannotParse, None, reason), now, ok);
  }

  /** Text that does not trim to nothing goes to the router's decision, on the trimmed text. */
  lemma UserTextDecides(s: CoreState, rc: bool, text: string, d: RouteResponse, now: nat, ok: bool)
    requires Trim(text) != []
    ensures UserTextStep(s, rc, text, Ok(d), now, ok) == DecisionStep(s, rc, Trim(text), d, now, ok)
  {
    TrimEmptyIffAllWhitespace(text);
  }

  /**
   * With confirmation required, a launch request stores a pending entry and
   * prompts with the same id and prompt (the trimmed text when the router
   * gives none); nothing is launched yet.
   */
  lemma LaunchWaitsForConfirmation(s: CoreState, text: string, prompt: Option<string>, now: nat, ok: bool)
    requires !AllWhitespace(text)
    ensures var r := UserTextStep(s, true, text, Ok(RouteResponse(LaunchClaude, prompt, None)), now, ok);
      var p := if prompt.Some? then prompt.value else Trim(text);
      r.0.pending == Some(PendingConfirmation(WorkstationStates.ConfirmationIdAt(now), p)) &&
      r.0.sent == s.sent + [PromptConfirmation(Some(r.0.pending.value.id), EXECUTOR_LAUNCH, "Claude", p)] &&
      r.0.launched == s.launched
  {
    TrimEmptyIffAllWhitespace(text);
    UserTextDecides(s, true, text, RouteResponse(LaunchClaude, prompt, None), now, ok);
  }

  /** Without confirmation the executor launches at once and the pending slot is untouched. */
  lemma LaunchImmediately(s: CoreState, text: string, prompt: Option<string>, now: nat, ok: bool)
    requires !AllWhitespace(text)
    ensures var r := UserTextStep(s, false, text, Ok(RouteResponse(LaunchClaude, prompt, None)), now, ok);
      r.0.pending == s.pending &&
      r.0.launched == s.launched + [if prompt.Some? then prompt.value else Trim(text)] &&
      (r.1.Ok? <==> ok)
  {
    TrimEmptyIffAllWhitespace(text);
    UserTextDecides(s, false, text, RouteResponse(LaunchClaude, prompt, None), now, ok);
  }

  /** A response for something other than an executor launch, or naming another id, changes nothing. */
  lemma ForeignConfirmIgnored(s: CoreState, forKind: string, id: Option<string>, accept: bool, ok: bool)
    requires forKind != EXECUTOR_LAUNCH || (s.pending.Some? && id.Some? && id.value != s.pending.value.id)
    ensures ConfirmStep(s, forKind, id, accept, ok) == (s, Ok(()))
  {
  }

  /** Accepting launches the pending prompt once and clears it; a second accept launches nothing. */
  lemma AcceptLaunchesOnce(s: CoreState, id: Option<string>, ok: bool)
    requires s.pending.Some? && Matches(s.pending.value, id)
    ensures var r := ConfirmStep(s, EXECUTOR_LAUNCH, id, true, ok);
      r.0.pending.None? && r.0.launched == s.launched + [s.pending.value.prompt] &&
      ConfirmStep(r.0, EXECUTOR_LAUNCH, id, true, ok).0 == r.0
  {
  }

  /** Declining clears a matching pending entry and always announces the cancellation. */
  lemma DeclineCancels(s: CoreState, id: Option<string>, ok: bool)
    requires s.pending.None? || Matches(s.pending.value, id)
    ensures ConfirmStep(s, EXECUTOR_LAUNCH, id, false, ok) == (s.(pending := None, sent := s.sent + [CANCELED]), Ok(()))
  {
  }

  /** The prompt a confirmation announces is the one launched when that id is accepted. */
  lemma PromptThenAccept(s: CoreState, text: string, prompt: Option<string>, now: nat)
    requires !AllWhitespace(text)
    ensures var s1 := UserTextStep(s, true, text, Ok(RouteResponse(LaunchClaude, prompt, None)), now, true).0;
      var announced := s1.sent[|s1.sent| - 1];
      announced.PromptConfirmation? &&
      ConfirmStep(s1, EXECUTOR_LAUNCH, announced.id, true, true).0.launched == s.launched + [announced.prompt]
  {
    LaunchWaitsForConfirmation(s, text, prompt, now, true);
  }

  class OrchestratorCore {
    var requireConfirmation: bool
    var pending: Option<PendingConfirmation>
    var sent: seq<OutMessage>
    var launched: seq<string>

    /** A new core requires confirmation and has nothing pending. */
    constructor()
      ensures requireConfirmation && pending.None? && sent == [] && launched == []
    {
      requireConfirmation := true;
      pending := None;
      sent := [];
      launched := [];
    }

    method SetRequireConfirmation(yes: bool)
      modifies this
      ensures requireConfirmation == yes
      ensures pending == old(pending) && sent == old(sent) && launched == old(launched)
    {
      requireConfirmation := yes;
    }

    method HandleUserText(text: string, route: Result<RouteResponse>, nowMillis: nat, launchOk: bool) returns (r: Result<()>)
      modifies this
      ensures var step := UserTextStep(old(CoreState(pending, sent, launched)), requireConfirmation, text, route, nowMillis, launchOk);
        pending == step.0.pending && sent == step.0.sent && launched == step.0.launched && r == step.1
      ensures requireConfirmation == old(requireConfirmation)
    {
      var step := UserTextStep(CoreState(pending, sent, launched), requireConfirmation, text, route, nowMillis, launchOk);
      pending, sent, launched := step.0.pending, step.0.sent, step.0.launched;
      r := step.1;
    }

    method HandleConfirm(forKind: string, id: Option<string>, accept: bool, launchOk: bool) returns (r: Result<()>)
      modifies this
      ensures var step := ConfirmStep(old(CoreState(pending, sent, launched)), forKind, id, accept, launchOk);
        pending == step.0.pending && sent == step.0.sent && launched == step.0.launched && r == step.1
      ensures requireConfirmation == old(requireConfirmation)
    {
      var step := ConfirmStep(CoreState(pending, sent, launched), forKind, id, accept, launchOk);
      pending, sent, launched := step.0.pending, step.0.sent, step.0.launched;
      r := step.1;
    }
  }
}
