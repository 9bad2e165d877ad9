/**
 * The router's conversation memory (crates/router/src/memory.rs): a
 * bounded deque of the latest messages, rendered as context for the
 * language model. Timestamps come from the clock and are parameters.
 */
module ConversationMemoryModel {
  import opened StrUtil
  import BoundedQueue

  const MAX_HISTORY_SIZE: nat := 10

  datatype MessageRole = User | Assistant | System

  datatype Message = Message(role: MessageRole, content: string, timestamp: int)

  function RoleText(r: MessageRole): string
  {
    match r
    case User => "User"
    case Assistant => "Assistant"
    case System => "System"
  }

  /** One numbered context line, `i. [Role]: content`. */
  function EntryText(i: nat, m: Message): string
  {
    NatToString(i) + ". [" + RoleText(m.role) + "]: " + m.content + "\n"
  }

  /** The numbered lines of `ms`, counting from `first`. */
  function Entries(ms: seq<Message>, first: nat): (r: string)
    ensures ms != [] ==> r != []
    decreases |ms|
  {
    if ms == [] then [] else EntryText(first, ms[0]) + Entries(ms[1..], first + 1)
  }

  /** `get_context_for_llm`: a header with the count, then one numbered line per message; empty without messages. */
  function ContextText(ms: seq<Message>): string
  {
    if ms == [] then []
    else "\nConversation History (last " + NatToString(|ms|) + " messages):\n" + Entries(ms, 1)
  }

  /** The context is empty exactly when memory is, and otherwise starts with the header. */
  lemma ContextEmptyIff(ms: seq<Message>)
    ensures ContextText(ms) == [] <==> ms == []
    ensures ms != [] ==> StartsWith(ContextText(ms), "\nConversation History (last ")
  {
    if ms != [] {
      var h := "\nConversation History (last ";
      assert ContextText(ms)[..|h|] == h;
    }
  }

  /** `get_last_assistant_message`: the newest Assistant message's content. */
  function LastAssistant(ms: seq<Message>): (r: Option<string>)
    decreases |ms|
  {
    if ms == [] then None
    else if ms[|ms| - 1].role == Assistant then Some(ms[|ms| - 1].content)
    else LastAssistant(ms[..|ms| - 1])
  }

  /** `ms[i]` is an Assistant message with no Assistant message after it. */
  predicate NewestAssistantAt(ms: seq<Message>, i: int)
  {
    0 <= i < |ms| && ms[i].role == Assistant && forall j :: i < j < |ms| ==> ms[j].role != Assistant
  }

  /** The answer is the content of an Assistant message with no Assistant message after it; None when there is none. */
  lemma {:induction false} LastAssistantIsNewest(ms: seq<Message>)
    ensures LastAssistant(ms).None? <==> forall i :: 0 <= i < |ms| ==> ms[i].role != Assistant
    ensures LastAssistant(ms).Some? ==> exists i :: NewestAssistantAt(ms, i) && ms[i].content == LastAssistant(ms).value
    decreases |ms|
  {
    if ms != [] && ms[|ms| - 1].role != Assistant {
      var init := ms[..|ms| - 1];
      LastAssistantIsNewest(init);
      if LastAssistant(init).Some? {
        var i :| NewestAssistantAt(init, i) && init[i].content == LastAssistant(init).value;
        assert NewestAssistantAt(ms, i);
      }
    }
  }

  class ConversationMemory {
    var messages: seq<Message>
    const maxSize: nat

    /** The deque never holds more than its capacity. */
    predicate Valid()
      reads this
    {
      |messages| <= BoundedQueue.Cap(maxSize)
    }

    /** `new`: the default capacity of ten. */
    constructor ()
      ensures Valid() && messages == [] && maxSize == MAX_HISTORY_SIZE
    {
      messages := [];
      maxSize := MAX_HISTORY_SIZE;
    }

    constructor WithMaxSize(max: nat)
      ensures Valid() && messages == [] && maxSize == max
    {
      messages := [];
      maxSize := max;
    }

    /** At capacity the oldest message goes first; memory keeps the newest messages in arrival order. */
    method AddMessage(m: Message)
      requires Valid()
      modifies this
      ensures Valid()
      ensures messages == BoundedQueue.Last(old(messages) + [m], BoundedQueue.Cap(maxSize))
    {
      BoundedQueue.PushKeepsNewest(messages, m, maxSize);
      messages := BoundedQueue.PushBounded(messages, m, maxSize);
    }

    method AddUserMessage(content: string, now: int)
      requires Valid()
      modifies this
      ensures Valid()
      ensures messages == BoundedQueue.Last(old(messages) + [Message(User, content, now)], BoundedQueue.Cap(maxSize))
    {
      AddMessage(Message(User, content, now));
    }

    method AddAssistantMessage(content: string, now: int)
      requires Valid()
      modifies this
      ensures Valid()
      ensures messages == BoundedQueue.Last(old(messages) + [Message(Assistant, content, now)], BoundedQueue.Cap(maxSize))
    {
      AddMessage(Message(Assistant, content, now));
    }

    /** Oldest to newest. */
    function GetHistory(): (r: seq<Message>)
      reads this
      ensures r == messages
      ensures Valid() ==> |r| <= BoundedQueue.Cap(maxSize)
    {
      messages
    }

    /** The history header and lines, or nothing for an empty memory. */
    function GetContextForLlm(): (r: string)
      reads this
      ensures r == [] <==> messages == []
      ensures messages != [] ==> StartsWith(r, "\nConversation History (last ")
    {
      ContextEmptyIff(messages);
      ContextText(messages)
    }

    method Clear()
      modifies this
      ensures Valid() && messages == []
    {
      messages := [];
    }

    function Len(): (n: nat)
      reads this
      ensures n == |messages|
      ensures Valid() ==> n <= BoundedQueue.Cap(maxSize)
    {
      |messages|
    }

    /** An empty memory gives no context and no assistant message. */
    function IsEmpty(): (r: bool)
      reads this
      ensures r <==> Len() == 0
      ensures r <==> GetContextForLlm() == []
      ensures r ==> GetLastAssistantMessage().None?
    {
      messages == []
    }

    /** The newest assistant message's content, if any. */
    function GetLastAssistantMessage(): (r: Option<string>)
      reads this
      ensures r.None? <==> forall i :: 0 <= i < |messages| ==> messages[i].role != Assistant
      ensures r.Some? ==> exists i :: NewestAssistantAt(messages, i) && messages[i].content == r.value
    {
      LastAssistantIsNewest(messages);
      LastAssistant(messages)
    }
  }
}
