/**
 * Per-session context (crates/orchestrator-core/src/session/context.rs):
 * identifiers, the active prompt, free-form metadata and the routing
 * context with its retry counter. The session id is a random UUID and is
 * a parameter here.
 */
module SessionContextModel {
  import opened StrUtil
  import JsonValue

  const DEFAULT_MAX_RETRIES: nat := 3

  datatype ExecutorTarget = Claude | Custom(name: string)

  datatype RoutingContext = RoutingContext(
    lastRouterResponse: Option<string>,
    requiresConfirmation: bool,
    targetExecutor: Option<ExecutorTarget>,
    retryCount: nat,
    maxRetries: nat)

  /** `RoutingContext::new`. */
  const NEW_ROUTING := RoutingContext(None, false, None, 0, DEFAULT_MAX_RETRIES)

  function SetRouterResponse(r: RoutingContext, response: string): (r': RoutingContext)
    ensures r' == r.(lastRouterResponse := Some(response))
  {
    r.(lastRouterResponse := Some(response))
  }

  function SetTarget(r: RoutingContext, target: ExecutorTarget, requiresConfirmation: bool): (r': RoutingContext)
    ensures r'.targetExecutor == Some(target) && r'.requiresConfirmation == requiresConfirmation
    ensures r'.retryCount == r.retryCount && r'.maxRetries == r.maxRetries && r'.lastRouterResponse == r.lastRouterResponse
  {
    r.(targetExecutor := Some(target), requiresConfirmation := requiresConfirmation)
  }

  /** `clear_target` resets both the target and the confirmation flag. */
  function ClearTarget(r: RoutingContext): (r': RoutingContext)
    ensures r'.targetExecutor == None && !r'.requiresConfirmation
    ensures r'.retryCount == r.retryCount && r'.maxRetries == r.maxRetries && r'.lastRouterResponse == r.lastRouterResponse
  {
    r.(targetExecutor := None, requiresConfirmation := false)
  }

  /** Clearing a target undoes setting it. */
  lemma ClearUndoesSet(r: RoutingContext, target: ExecutorTarget, requiresConfirmation: bool)
    ensures ClearTarget(SetTarget(r, target, requiresConfirmation)) == ClearTarget(r)
  {
  }

  /** `should_retry`: attempts remain. */
  function ShouldRetry(r: RoutingContext): (allowed: bool)
    ensures allowed <==> r.maxRetries - r.retryCount > 0
  {
    r.retryCount < r.maxRetries
  }

  /** `increment_retry`: counts one more attempt while attempts remain, and says whether it did. */
  function IncrementRetry(r: RoutingContext): (res: (RoutingContext, bool))
    ensures res.1 <==> ShouldRetry(r)
    ensures res.0 == if res.1 then r.(retryCount := r.retryCount + 1) else r
  {
    if r.retryCount < r.maxRetries then (r.(retryCount := r.retryCount + 1), true) else (r, false)
  }

  /** `n` calls to `increment_retry`. */
  function RetryTimes(r: RoutingContext, n: nat): RoutingContext
    decreases n
  {
    if n == 0 then r else RetryTimes(IncrementRetry(r).0, n - 1)
  }

  /**
   * The counter never passes the limit: after `n` attempts from a count
   * within the limit, it is the smaller of the limit and the count plus
   * `n`. With the limits in use it stays far below `u32::MAX`.
   */
  lemma {:induction false} RetriesSaturate(r: RoutingContext, n: nat)
    requires r.retryCount <= r.maxRetries
    ensures RetryTimes(r, n).retryCount == if r.retryCount + n <= r.maxRetries then r.retryCount + n else r.maxRetries
    ensures RetryTimes(r, n).maxRetries == r.maxRetries
    decreases n
  {
    if n > 0 {
      RetriesSaturate(IncrementRetry(r).0, n - 1);
    }
  }

  /** A fresh routing context allows exactly three retries. */
  lemma FreshAllowsThree(n: nat)
    ensures RetryTimes(NEW_ROUTING, n).retryCount == if n <= 3 then n else 3
    ensures ShouldRetry(RetryTimes(NEW_ROUTING, n)) <==> n < 3
  {
    RetriesSaturate(NEW_ROUTING, n);
  }

  /** Everything a `SessionContext` holds, as one value. */
  datatype ContextView = ContextView(
    sessionId: string,
    userId: Option<string>,
    projectPath: Option<string>,
    executorId: Option<string>,
    metadata: map<string, JsonValue.Value>,
    activePrompt: Option<string>,
    confirmationPending: bool,
    routing: RoutingContext)

  /** The state of `SessionContext::new` for the session id `id`. */
  function NewContext(id: string): (v: ContextView)
    ensures v.sessionId == id && v.metadata == map[] && v.routing == NEW_ROUTING
    ensures v.userId.None? && v.projectPath.None? && v.executorId.None? && v.activePrompt.None? && !v.confirmationPending
  {
    ContextView(id, None, None, None, map[], None, false, NEW_ROUTING)
  }

  class SessionContext {
    const sessionId: string
    var userId: Option<string>
    var projectPath: Option<string>
    var executorId: Option<string>
    var metadata: map<string, JsonValue.Value>
    var activePrompt: Option<string>
    var confirmationPending: bool
    var routing: RoutingContext

    function View(): ContextView
      reads this
    {
      ContextView(sessionId, userId, projectPath, executorId, metadata, activePrompt, confirmationPending, routing)
    }

    constructor (id: string)
      ensures View() == NewContext(id)
    {
      sessionId := id;
      userId := None;
      projectPath := None;
      executorId := None;
      metadata := map[];
      activePrompt := None;
      confirmationPending := false;
      routing := NEW_ROUTING;
    }

    method WithUserId(id: string)
      modifies this
      ensures View() == old(View()).(userId := Some(id))
    {
      userId := Some(id);
    }

    method WithProjectPath(path: string)
      modifies this
      ensures View() == old(View()).(projectPath := Some(path))
    {
      projectPath := Some(path);
    }

    method SetActivePrompt(prompt: string)
      modifies this
      ensures View() == old(View()).(activePrompt := Some(prompt))
    {
      activePrompt := Some(prompt);
    }

    method ClearActivePrompt()
      modifies this
      ensures View() == old(View()).(activePrompt := None)
    {
      activePrompt := None;
    }

    method SetExecutorId(id: string)
      modifies this
      ensures View() == old(View()).(executorId := Some(id))
    {
      executorId := Some(id);
    }

    method ClearExecutorId()
      modifies this
      ensures View() == old(View()).(executorId := None)
    {
      executorId := None;
    }

    /** Insert or overwrite one key. */
    method SetMetadata(key: string, value: JsonValue.Value)
      modifies this
      ensures View() == old(View()).(metadata := old(metadata)[key := value])
    {
      metadata := metadata[key := value];
    }

    function GetMetadata(key: string): (r: Option<JsonValue.Value>)
      reads this
      ensures r.Some? <==> key in metadata
      ensures r.Some? ==> r.value == metadata[key]
    {
      if key in metadata then Some(metadata[key]) else None
    }

    /** Remove one key, handing back its value if it was there. */
    method RemoveMetadata(key: string) returns (removed: Option<JsonValue.Value>)
      modifies this
      ensures removed == old(GetMetadata(key))
      ensures View() == old(View()).(metadata := old(metadata) - {key})
    {
      removed := GetMetadata(key);
      metadata := metadata - {key};
    }

    method ResetRoutingContext()
      modifies this
      ensures View() == old(View()).(routing := NEW_ROUTING)
    {
      routing := NEW_ROUTING;
    }

    method IncrementRetryCount() returns (incremented: bool)
      modifies this
      ensures (routing, incremented) == IncrementRetry(old(routing))
      ensures View() == old(View()).(routing := routing)
    {
      if routing.retryCount < routing.maxRetries {
        routing := routing.(retryCount := routing.retryCount + 1);
        incremented := true;
      } else {
        incremented := false;
      }
    }

    /** `should_retry`: attempts remain in the session's routing context. */
    function ShouldRetryNow(): (allowed: bool)
      reads this
      ensures allowed <==> routing.retryCount < routing.maxRetries
      ensures allowed <==> IncrementRetry(routing).1
    {
      ShouldRetry(routing)
    }
  }
}
