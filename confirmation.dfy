/**
 * Classification of the user's answer to "continue the previous session or
 * start a new one?" (crates/router/src/confirmation.rs).
 */
module Confirmation {
  import opened StrUtil

  /** The router actions this classifier produces; `Other` stands for the router's remaining actions. */
  datatype RouterAction =
    | ContinuePrevious
    | StartNew
    | DeclineSession
    | AmbiguousConfirmation
    | UnintelligibleResponse
    | Other

  datatype RouterResponse = RouterResponse(action: RouterAction, prompt: Option<string>, reason: Option<string>, confidence: real)

  const CONTINUE_PATTERNS: seq<string> := ["continue", "resume", "pick up", "where we left", "previous", "last session"]
  const NEW_PATTERNS: seq<string> := ["new", "fresh", "start over", "from scratch", "clean", "restart"]
  const NEGATIVE_WORDS: seq<string> := ["no", "nope", "nah"]
  const DECLINE_PHRASES: seq<string> := ["not now", "cancel", "never mind", "forget it", "don't", "stop"]
  const AFFIRMATIVE_WORDS: seq<string> := ["yes", "yeah", "yep", "okay", "ok", "sure", "alright"]
  const QUALIFIERS: seq<string> := ["continue", "new", "fresh", "previous"]

  /** A whole word no/nope/nah, or a declining phrase anywhere. */
  predicate IsNegativeResponse(words: seq<string>, text: string)
  {
    (exists k :: 0 <= k < |NEGATIVE_WORDS| && NEGATIVE_WORDS[k] in words)
    || ContainsAny(text, DECLINE_PHRASES)
  }

  /** A bare affirmative that names neither continuing nor starting over. */
  predicate IsAmbiguousAffirmative(words: seq<string>, text: string)
  {
    if |words| == 1 then words[0] in AFFIRMATIVE_WORDS
    else if |words| <= 2 && "yes" in words && !ContainsAny(text, QUALIFIERS) then true
    else text == "yes please" || text == "okay please" || text == "sure thing"
  }

  /** The decision on the lowercased answer and its words. */
  function Classify(lower: string, words: seq<string>): (r: RouterAction)
    ensures r != Other
    ensures r == ContinuePrevious <==> ContainsAny(lower, CONTINUE_PATTERNS)
    ensures r == StartNew <==> !ContainsAny(lower, CONTINUE_PATTERNS) && ContainsAny(lower, NEW_PATTERNS)
    ensures r == DeclineSession <==>
      !ContainsAny(lower, CONTINUE_PATTERNS) && !ContainsAny(lower, NEW_PATTERNS) && IsNegativeResponse(words, lower)
    ensures r == AmbiguousConfirmation <==>
      !ContainsAny(lower, CONTINUE_PATTERNS) && !ContainsAny(lower, NEW_PATTERNS) && !IsNegativeResponse(words, lower)
      && IsAmbiguousAffirmative(words, lower)
    ensures r == UnintelligibleResponse <==>
      !ContainsAny(lower, CONTINUE_PATTERNS) && !ContainsAny(lower, NEW_PATTERNS) && !IsNegativeResponse(words, lower)
      && !IsAmbiguousAffirmative(words, lower)
  {
    if ContainsAny(lower, CONTINUE_PATTERNS) then ContinuePrevious
    else if ContainsAny(lower, NEW_PATTERNS) then StartNew
    else if IsNegativeResponse(words, lower) then DeclineSession
    else if IsAmbiguousAffirmative(words, lower) then AmbiguousConfirmation
    else UnintelligibleResponse
  }

  /**
   * `analyze_confirmation_response`: continue patterns first, then new
   * patterns, then declines, then bare affirmatives, otherwise unintelligible.
   */
  function AnalyzeConfirmationResponse(text: string): (r: RouterAction)
    ensures r != Other
    ensures r == ContinuePrevious <==> ContainsAny(ToLower(text), CONTINUE_PATTERNS)
    ensures r == StartNew <==> !ContainsAny(ToLower(text), CONTINUE_PATTERNS) && ContainsAny(ToLower(text), NEW_PATTERNS)
    ensures r == DeclineSession <==>
      !ContainsAny(ToLower(text), CONTINUE_PATTERNS) && !ContainsAny(ToLower(text), NEW_PATTERNS)
      && IsNegativeResponse(SplitWhitespace(ToLower(text)), ToLower(text))
    ensures r == AmbiguousConfirmation <==>
      !ContainsAny(ToLower(text), CONTINUE_PATTERNS) && !ContainsAny(ToLower(text), NEW_PATTERNS)
      && !IsNegativeResponse(SplitWhitespace(ToLower(text)), ToLower(text))
      && IsAmbiguousAffirmative(SplitWhitespace(ToLower(text)), ToLower(text))
    ensures r == UnintelligibleResponse <==>
      !ContainsAny(ToLower(text), CONTINUE_PATTERNS) && !ContainsAny(ToLower(text), NEW_PATTERNS)
      && !IsNegativeResponse(SplitWhitespace(ToLower(text)), ToLower(text))
      && !IsAmbiguousAffirmative(SplitWhitespace(ToLower(text)), ToLower(text))
  {
    var lower := ToLower(text);
    Classify(lower, SplitWhitespace(lower))
  }

  /** Classification ignores letter case. */
  lemma CaseInsensitive(text: string)
    ensures AnalyzeConfirmationResponse(ToLower(text)) == AnalyzeConfirmationResponse(text)
  {
    ToLowerIdempotent(text);
  }

  /** A continue pattern anywhere in the answer wins over everything else, "yes continue" included. */
  lemma ContinueTakesPrecedence(a: string, b: string, k: nat)
    requires k < |CONTINUE_PATTERNS|
    ensures AnalyzeConfirmationResponse(a + CONTINUE_PATTERNS[k] + b) == ContinuePrevious
  {
    assert NoUpper(CONTINUE_PATTERNS[k]);
    ContainsLowered(a, CONTINUE_PATTERNS[k], b);
  }

  /** A new-session pattern wins over a decline when no continue pattern is present. */
  lemma NewBeforeDecline(a: string, b: string, k: nat)
    requires k < |NEW_PATTERNS|
    requires !ContainsAny(ToLower(a + NEW_PATTERNS[k] + b), CONTINUE_PATTERNS)
    ensures AnalyzeConfirmationResponse(a + NEW_PATTERNS[k] + b) == StartNew
  {
    assert NoUpper(NEW_PATTERNS[k]);
    ContainsLowered(a, NEW_PATTERNS[k], b);
  }

  /** Bare affirmative words contain none of the other patterns. */
  lemma AffirmativeWordsPlain(w: string)
    requires w in AFFIRMATIVE_WORDS
    ensures NoUpper(w) && IsWord(w)
    ensures !ContainsAny(w, CONTINUE_PATTERNS) && !ContainsAny(w, NEW_PATTERNS) && !ContainsAny(w, DECLINE_PHRASES)
  {
    AffirmativeIsPlainWord(w);
    AffirmativeNotContinue(w);
    AffirmativeNotNew(w);
    AffirmativeNotDecline(w);
  }

  lemma AffirmativeNotContinue(w: string)
    requires w in AFFIRMATIVE_WORDS
    ensures !ContainsAny(w, CONTINUE_PATTERNS)
  {
    AbsentPatterns(w, CONTINUE_PATTERNS);
  }

  lemma AffirmativeNotNew(w: string)
    requires w in AFFIRMATIVE_WORDS
    ensures !ContainsAny(w, NEW_PATTERNS)
  {
    AbsentPatterns(w, NEW_PATTERNS);
  }

  lemma AffirmativeNotDecline(w: string)
    requires w in AFFIRMATIVE_WORDS
    ensures !ContainsAny(w, DECLINE_PHRASES)
  {
    AbsentPatterns(w, DECLINE_PHRASES);
  }

  lemma AffirmativeIsPlainWord(w: string)
    requires w in AFFIRMATIVE_WORDS
    ensures NoUpper(w) && IsWord(w)
  {
    var k :| 0 <= k < |AFFIRMATIVE_WORDS| && AFFIRMATIVE_WORDS[k] == w;
    forall i | 0 <= i < |w|
      ensures 'a' <= w[i] <= 'z'
    {
      if k == 0 { assert w == "yes"; }
      else if k == 1 { assert w == "yeah"; }
      else if k == 2 { assert w == "yep"; }
      else if k == 3 { assert w == "okay"; }
      else if k == 4 { assert w == "ok"; }
      else if k == 5 { assert w == "sure"; }
      else { assert w == "alright"; }
    }
  }

  /** A lowercase answer of one word is classified on that word alone. */
  lemma SingleWord(w: string)
    requires NoUpper(w) && IsWord(w)
    ensures AnalyzeConfirmationResponse(w) == Classify(w, [w])
  {
    ToLowerOfNoUpper(w);
    SplitWhitespaceOfWord(w);
  }

  /** A single affirmative word on its own asks for clarification. */
  lemma AffirmativeWordIsAmbiguous(w: string)
    requires w in AFFIRMATIVE_WORDS
    ensures AnalyzeConfirmationResponse(w) == AmbiguousConfirmation
  {
    AffirmativeWordsPlain(w);
    assert !IsNegativeResponse([w], w);
    SingleWord(w);
  }

  /** A bare no/nope/nah declines. */
  lemma NegativeWordDeclines(w: string)
    requires w in NEGATIVE_WORDS
    ensures AnalyzeConfirmationResponse(w) == DeclineSession
  {
    NegativeNotContinue(w);
    NegativeNotNew(w);
    assert IsNegativeResponse([w], w);
    SingleWord(w);
  }

  lemma NegativeNotContinue(w: string)
    requires w in NEGATIVE_WORDS
    ensures !ContainsAny(w, CONTINUE_PATTERNS)
  {
    AbsentPatterns(w, CONTINUE_PATTERNS);
  }

  lemma NegativeNotNew(w: string)
    requires w in NEGATIVE_WORDS
    ensures !ContainsAny(w, NEW_PATTERNS)
  {
    AbsentPatterns(w, NEW_PATTERNS);
  }

  /** `create_confirmation_response`: no prompt and a fixed reason and confidence per action. */
  function CreateConfirmationResponse(action: RouterAction): (r: RouterResponse)
    ensures r.action == action && r.prompt.None? && r.reason.Some?
    ensures 0.0 <= r.confidence <= 1.0
    ensures action == Other <==> r.confidence == 0.0
  {
    var (reason, confidence) := match action
      case ContinuePrevious => ("User wants to continue previous session", 0.9)
      case StartNew => ("User wants to start a new session", 0.9)
      case DeclineSession => ("User declined to start a session", 0.95)
      case AmbiguousConfirmation => ("User said yes but didn't specify continue or new", 0.8)
      case UnintelligibleResponse => ("Could not understand the response", 0.7)
      case Other => ("Invalid confirmation action", 0.0);
    RouterResponse(action, None, Some(reason), confidence)
  }

  /** Different actions get different reasons, so the reason identifies the action. */
  lemma ReasonIdentifiesAction(a: RouterAction, b: RouterAction)
    requires a != b
    ensures CreateConfirmationResponse(a).reason != CreateConfirmationResponse(b).reason
  {
  }
}
