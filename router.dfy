/**
 * The artifact-editor router (src/router.rs): turning the router model's
 * JSON answer into an intent, and the keyword rules that read an intent
 * out of the assistant's reply. The HTTP call, its retries and the JSON
 * parsing are left out; the parsed answer is a `RouterResponse` value.
 */
module IntentRouter {
  import opened StrUtil

  datatype ProposedAction =
    | WriteDescription
    | WritePhasing
    | ReadDescription
    | ReadPhasing
    | ReadDescriptionSlowly
    | ReadPhasingSlowly
    | ReadPhase(number: nat)
    | EditDescription(change: string)
    | EditPhasing(phase: Option<nat>, change: string)
    | RepeatLast
    | Stop

  datatype Intent =
    | Proposal(action: ProposedAction, question: string)
    | Directive(action: ProposedAction)
    | Confirmation(confirmed: bool)
    | Info(message: string)

  /** The router model's JSON answer, as serde reads it. */
  datatype RouterResponse = RouterResponse(
    intentType: string,
    action: Option<string>,
    confirmed: Option<bool>,
    question: Option<string>,
    phaseNumber: Option<nat>)

  // ---------------------------------------------------------------------------
  // Action names
  // ---------------------------------------------------------------------------

  /** The action strings the router model may answer with. */
  const ACTION_NAMES: seq<string> := [
    "write_description", "write_phasing", "read_description", "read_phasing",
    "read_description_slowly", "read_phasing_slowly", "read_phase_N",
    "edit_description", "edit_phasing", "stop", "repeat_last"]

  /** The string that names each action. */
  function ActionName(a: ProposedAction): (name: string)
    ensures name in ACTION_NAMES
  {
    match a
    case WriteDescription => "write_description"
    case WritePhasing => "write_phasing"
    case ReadDescription => "read_description"
    case ReadPhasing => "read_phasing"
    case ReadDescriptionSlowly => "read_description_slowly"
    case ReadPhasingSlowly => "read_phasing_slowly"
    case ReadPhase(_) => "read_phase_N"
    case EditDescription(_) => "edit_description"
    case EditPhasing(_, _) => "edit_phasing"
    case RepeatLast => "repeat_last"
    case Stop => "stop"
  }

  /**
   * `parse_action_with_context`: a known action string gives its action,
   * with the whole input as the change of an edit and the phase number
   * attached where the action takes one; `read_phase_N` without a number
   * and an unknown string are errors.
   */
  function ParseAction(action: string, input: string, phaseNumber: Option<nat>): (r: Result<ProposedAction>)
    ensures r.Ok? <==> action in ACTION_NAMES && (action == "read_phase_N" ==> phaseNumber.Some?)
    ensures r.Ok? ==> ActionName(r.value) == action
    ensures r.Ok? && r.value.ReadPhase? ==> phaseNumber == Some(r.value.number)
    ensures r.Ok? && r.value.EditPhasing? ==> r.value.phase == phaseNumber
    ensures r.Ok? && (r.value.EditDescription? || r.value.EditPhasing?) ==> r.value.change == input
  {
    if action == "write_description" then Ok(WriteDescription)
    else if action == "write_phasing" then Ok(WritePhasing)
    else if action == "read_description" then Ok(ReadDescription)
    else if action == "read_phasing" then Ok(ReadPhasing)
    else if action == "read_description_slowly" then Ok(ReadDescriptionSlowly)
    else if action == "read_phasing_slowly" then Ok(ReadPhasingSlowly)
    else if action == "read_phase_N" then
      (match phaseNumber
       case Some(n) => Ok(ReadPhase(n))
       case None => Err("Phase number required for read_phase_N"))
    else if action == "edit_description" then Ok(EditDescription(input))
    else if action == "edit_phasing" then Ok(EditPhasing(phaseNumber, input))
    else if action == "stop" then Ok(Stop)
    else if action == "repeat_last" then Ok(RepeatLast)
    else Err("Unknown action: " + action)
  }

  /** The input an action carries as its change (empty for the others). */
  function ActionInput(a: ProposedAction): string
  {
    match a
    case EditDescription(c) => c
    case EditPhasing(_, c) => c
    case _ => ""
  }

  /** The phase number an action carries. */
  function ActionPhase(a: ProposedAction): Option<nat>
  {
    match a
    case ReadPhase(n) => Some(n)
    case EditPhasing(p, _) => p
    case _ => None
  }

  /** Every action is read back from its own name, change and phase. */
  lemma ParseActionRoundTrip(a: ProposedAction)
    ensures ParseAction(ActionName(a), ActionInput(a), ActionPhase(a)) == Ok(a)
  {
    match a
    case WriteDescription =>
    case WritePhasing =>
    case ReadDescription =>
    case ReadPhasing =>
    case ReadDescriptionSlowly =>
    case ReadPhasingSlowly =>
    case ReadPhase(_) =>
    case EditDescription(_) =>
    case EditPhasing(_, _) =>
    case RepeatLast =>
    case Stop =>
  }

  // ---------------------------------------------------------------------------
  // The router model's answer
  // ---------------------------------------------------------------------------

  /** The question a proposal asks when the router model gives none. */
  function DefaultQuestion(actionName: string): (q: string)
    ensures StartsWith(q, "Should I ") && EndsWith(q, "?")
  {
    "Should I " + Replace(actionName, "_", " ") + "?"
  }

  /** The answer names an action that parses. */
  predicate ActionParses(resp: RouterResponse, input: string)
  {
    resp.action.Some? && ParseAction(resp.action.value, input, resp.phaseNumber).Ok?
  }

  /**
   * The conversion from the router model's answer to an intent: a
   * directive or proposal whose action does not parse falls back to Info
   * ("Got it" and "What would you like?"); a confirmation without the
   * flag is a refusal; any other intent type is Info "Got it".
   */
  function IntentOf(resp: RouterResponse, input: string): (r: Intent)
    ensures r.Confirmation? <==> resp.intentType == "confirmation"
    ensures r.Confirmation? ==> (r.confirmed <==> resp.confirmed == Some(true))
    ensures r.Directive? <==> resp.intentType == "directive" && ActionParses(resp, input)
    ensures r.Proposal? <==> resp.intentType == "proposal" && ActionParses(resp, input)
    ensures r.Proposal? && resp.question.Some? ==> r.question == resp.question.value
    ensures r.Proposal? && resp.question.None? ==> r.question == DefaultQuestion(resp.action.value)
    ensures resp.intentType !in ["directive", "proposal", "confirmation"] ==> r == Info("Got it")
  {
    var actionName := if resp.action.Some? then resp.action.value else "none";
    if resp.intentType == "directive" then
      match ParseAction(actionName, input, resp.phaseNumber)
      case Ok(a) => Directive(a)
      case Err(_) => Info("Got it")
    else if resp.intentType == "proposal" then
      match ParseAction(actionName, input, resp.phaseNumber)
      case Ok(a) =>
        var question := if resp.question.Some? then resp.question.value else DefaultQuestion(actionName);
        Proposal(a, question)
      case Err(_) => Info("What would you like?")
    else if resp.intentType == "confirmation" then
      Confirmation(if resp.confirmed.Some? then resp.confirmed.value else false)
    else Info("Got it")
  }

  /**
   * "none" names no action, so a directive or proposal without an action
   * falls back to its Info message.
   */
  lemma MissingActionIsInfo(resp: RouterResponse, input: string)
    requires resp.action.None?
    ensures resp.intentType == "directive" ==> IntentOf(resp, input) == Info("Got it")
    ensures resp.intentType == "proposal" ==> IntentOf(resp, input) == Info("What would you like?")
  {
    assert "none" !in ACTION_NAMES;
  }

  // ---------------------------------------------------------------------------
  // Reading the assistant's reply
  // ---------------------------------------------------------------------------

  /** The text the keyword rules look at: the lowercased request, a space, the lowercased reply. */
  function Combined(transcript: string, textLower: string): string
  {
    ToLower(transcript) + " " + textLower
  }

  /** The text names an artifact to write or read. */
  predicate NamesArtifact(c: string)
  {
    Contains(c, "description") || Contains(c, "phasing")
  }

  /** The text asks to write or read an artifact. */
  predicate AsksWriteOrRead(c: string)
  {
    (Contains(c, "write") || Contains(c, "read")) && NamesArtifact(c)
  }

  /** The text asks to edit an artifact. */
  predicate AsksEdit(c: string)
  {
    Contains(c, "edit") && (Contains(c, "description") || Contains(c, "phas"))
  }

  /**
   * `extract_action_from_text`: write before read before edit, and the
   * description before the phasing. An edit carries the request as
   * spoken, and an edit of the phasing the phase number read from the
   * combined text.
   */
  function ExtractAction(transcript: string, textLower: string): (r: Option<ProposedAction>)
    ensures r.None? <==> !AsksWriteOrRead(Combined(transcript, textLower)) && !AsksEdit(Combined(transcript, textLower))
    ensures var c := Combined(transcript, textLower);
      Contains(c, "write") && NamesArtifact(c) ==> r.Some? && (r.value == WriteDescription || r.value == WritePhasing)
    ensures var c := Combined(transcript, textLower);
      AsksWriteOrRead(c) ==> r.Some? && !r.value.EditDescription? && !r.value.EditPhasing?
    ensures Contains(Combined(transcript, textLower), "description") && r.Some? ==> r.value != WritePhasing && r.value != ReadPhasing
    ensures r.Some? && r.value.EditDescription? ==> r.value.change == transcript
    ensures r.Some? && r.value.EditPhasing? ==>
      r.value.change == transcript && r.value.phase == PhaseNumberAsWritten(Combined(transcript, textLower))
  {
    var c := Combined(transcript, textLower);
    if Contains(c, "write") && Contains(c, "description") then Some(WriteDescription)
    else if Contains(c, "write") && Contains(c, "phasing") then Some(WritePhasing)
    else if Contains(c, "read") && Contains(c, "description") then Some(ReadDescription)
    else if Contains(c, "read") && Contains(c, "phasing") then Some(ReadPhasing)
    else if Contains(c, "edit") && Contains(c, "description") then Some(EditDescription(transcript))
    else if Contains(c, "edit") && Contains(c, "phas") then Some(EditPhasing(PhaseNumberAsWritten(c), transcript))
    else None
  }

  /** The reply reads as a question: it ends with '?' or asks "should i" / "would you like". */
  predicate IsProposal(response: string)
  {
    EndsWith(response, "?") || Contains(ToLower(response), "should i") || Contains(ToLower(response), "would you like")
  }

  /**
   * `parse_assistant_response`: a recognised action in a question is a
   * proposal whose question is the reply, in a statement a directive;
   * without an action the reply is passed on as information.
   */
  function ParseAssistantResponse(transcript: string, response: string): (r: Intent)
    ensures r.Info? <==> ExtractAction(transcript, ToLower(response)).None?
    ensures r.Info? ==> r.message == response
    ensures r.Proposal? <==> !r.Info? && IsProposal(response)
    ensures r.Proposal? ==> r.question == response
    ensures r.Proposal? || r.Directive? ==> Some(r.action) == ExtractAction(transcript, ToLower(response))
  {
    match ExtractAction(transcript, ToLower(response))
    case Some(a) => if IsProposal(response) then Proposal(a, response) else Directive(a)
    case None => Info(response)
  }

  /** A word of the lower-cased transcript is a word of the combined text. */
  lemma CombinedKeeps(transcript: string, textLower: string, p: string)
    requires Contains(ToLower(transcript), p)
    ensures Contains(Combined(transcript, textLower), p)
  {
    var lower := ToLower(transcript);
    ConcatAssoc(lower, " ", textLower);
    ContainsPrefix(lower, " " + textLower, p);
  }

  /**
   * A request to write the description, answered with a question, is a
   * proposal to write the description whatever else the reply says.
   */
  lemma WriteRequestAnsweredByQuestion(transcript: string, response: string)
    requires Contains(ToLower(transcript), "write") && Contains(ToLower(transcript), "description")
    requires EndsWith(response, "?")
    ensures ParseAssistantResponse(transcript, response) == Proposal(WriteDescription, response)
  {
    CombinedKeeps(transcript, ToLower(response), "write");
    CombinedKeeps(transcript, ToLower(response), "description");
  }

  /** A request to read the phasing is read back as such unless the reply talks of writing or of the description. */
  lemma ReadPhasingRequest(transcript: string, response: string)
    requires Contains(ToLower(transcript), "read") && Contains(ToLower(transcript), "phasing")
    requires !Contains(Combined(transcript, ToLower(response)), "write")
    requires !Contains(Combined(transcript, ToLower(response)), "description")
    requires !IsProposal(response)
    ensures ParseAssistantResponse(transcript, response) == Directive(ReadPhasing)
  {
    CombinedKeeps(transcript, ToLower(response), "read");
    CombinedKeeps(transcript, ToLower(response), "phasing");
  }

  // ---------------------------------------------------------------------------
  // Phase numbers
  // ---------------------------------------------------------------------------

  /** The run of ASCII digits at the start of `s`. */
  function LeadingDigits(s: string): (d: string)
    ensures |d| <= |s| && d == s[..|d|] && AllDigits(d)
    ensures |d| == |s| || !IsDigit(s[|d|])
  {
    if s == [] || !IsDigit(s[0]) then []
    else
      var rest := LeadingDigits(s[1..]);
      assert s[..|rest| + 1] == [s[0]] + rest;
      [s[0]] + rest
  }

  /** Index of the first character of `s` that is not an ASCII digit. */
  function FirstNonDigit(s: string): (r: Option<nat>)
    ensures r.Some? ==> r.value == |LeadingDigits(s)| < |s|
    ensures r.None? ==> LeadingDigits(s) == s
  {
    if s == [] || !IsDigit(s[0]) then (if s == [] then None else Some(0))
    else match FirstNonDigit(s[1..])
      case None => None
      case Some(k) => Some(k + 1)
  }

  /** The leading digits are the only run of digits ended by a non-digit or the end. */
  lemma LeadingDigitsOf(d: string, tail: string)
    requires AllDigits(d)
    requires tail == [] || !IsDigit(tail[0])
    ensures LeadingDigits(d + tail) == d
  {
    var s := d + tail;
    assert forall k :: 0 <= k < |d| ==> s[k] == d[k];
    assert |tail| > 0 ==> s[|d|] == tail[0];
  }

  /** The first "phase " of `text` opens a phrase `w`: `w` is there at the same place. */
  lemma PhraseHasPhase(text: string, w: string)
    requires |w| >= 6 && w[..6] == "phase "
    requires Contains(text, w)
    ensures Contains(text, "phase ")
  {
    var i :| 0 <= i <= |text| && MatchAt(text, w, i);
    assert text[i..i + 6] == text[i..i + |w|][..6];
    assert MatchAt(text, "phase ", i);
  }

  /** One of the fixed phrases `extract_phase_number` looks for before any number. */
  predicate NamesPhraseAsWritten(text: string)
  {
    Contains(text, "phase one") || Contains(text, "phase 1") || Contains(text, "phase two")
    || Contains(text, "phase 2") || Contains(text, "phase three") || Contains(text, "phase 3")
  }

  /** No fixed phrase occurs where there is no "phase " at all. */
  lemma PhrasesNeedPhase(text: string)
    ensures NamesPhraseAsWritten(text) ==> Contains(text, "phase ")
  {
    if !NamesPhraseAsWritten(text) { return; }
    if Contains(text, "phase one") { PhraseHasPhase(text, "phase one"); }
    else if Contains(text, "phase 1") { PhraseHasPhase(text, "phase 1"); }
    else if Contains(text, "phase two") { PhraseHasPhase(text, "phase two"); }
    else if Contains(text, "phase 2") { PhraseHasPhase(text, "phase 2"); }
    else if Contains(text, "phase three") { PhraseHasPhase(text, "phase three"); }
    else { PhraseHasPhase(text, "phase 3"); }
  }

  /**
   * `extract_phase_number` as written: "phase one"/"phase 1" and the like
   * are tested as plain substrings, so "phase 12" counts as phase 1; and
   * the fallback number must be followed by a non-digit, so a number at
   * the very end of the text is lost. Without a fixed phrase, the digits
   * after the first "phase " are the number when a non-digit ends them.
   */
  function PhaseNumberAsWritten(text: string): (r: Option<nat>)
    ensures r.Some? ==> r.value < U32_BOUND
    ensures Contains(text, "phase 1") ==> r == Some(1)
    ensures !Contains(text, "phase ") ==> r.None?
    ensures !NamesPhraseAsWritten(text) && Contains(text, "phase ") ==>
      var after := text[Find(text, "phase ").value + 6..];
      r == (if LeadingDigits(after) == after then None else ParseU32(LeadingDigits(after)))
  {
    PhrasesNeedPhase(text);
    if Contains(text, "phase one") || Contains(text, "phase 1") then Some(1)
    else if Contains(text, "phase two") || Contains(text, "phase 2") then Some(2)
    else if Contains(text, "phase three") || Contains(text, "phase 3") then Some(3)
    else match Find(text, "phase ")
      case None => None
      case Some(idx) =>
        var after := text[idx + 6..];
        match FirstNonDigit(after)
        case None => None
        case Some(e) => ParseU32(after[..e])
  }

  /** "phase " followed by the digit `d` and then by no further digit. */
  predicate MentionsPhaseDigit(text: string, d: char)
  {
    exists i :: 0 <= i <= |text| && MatchAt(text, "phase " + [d], i) && (i + 7 == |text| || !IsDigit(text[i + 7]))
  }

  /** One of the phrases the mended reading looks for before any number. */
  predicate NamesPhrase(text: string)
  {
    Contains(text, "phase one") || MentionsPhaseDigit(text, '1') || Contains(text, "phase two")
    || MentionsPhaseDigit(text, '2') || Contains(text, "phase three") || MentionsPhaseDigit(text, '3')
  }

  /** A mention of "phase d" is a mention of "phase ". */
  lemma MentionHasPhase(text: string, d: char)
    requires MentionsPhaseDigit(text, d)
    ensures Contains(text, "phase ")
  {
    var i :| 0 <= i <= |text| && MatchAt(text, "phase " + [d], i) && (i + 7 == |text| || !IsDigit(text[i + 7]));
    ContainsAt(text, "phase " + [d], i);
    PhraseHasPhase(text, "phase " + [d]);
  }

  /** No phrase of the mended reading occurs where there is no "phase " at all. */
  lemma PhrasesMendedNeedPhase(text: string)
    ensures NamesPhrase(text) ==> Contains(text, "phase ")
  {
    if Contains(text, "phase one") { PhraseHasPhase(text, "phase one"); }
    else if Contains(text, "phase two") { PhraseHasPhase(text, "phase two"); }
    else if Contains(text, "phase three") { PhraseHasPhase(text, "phase three"); }
    else if MentionsPhaseDigit(text, '1') { MentionHasPhase(text, '1'); }
    else if MentionsPhaseDigit(text, '2') { MentionHasPhase(text, '2'); }
    else if MentionsPhaseDigit(text, '3') { MentionHasPhase(text, '3'); }
  }

  /**
   * The phase number with both faults mended: "phase 1" counts only when
   * no further digit follows, and the fallback number may end the text.
   * Without a phrase, the number is the digits after the first "phase ".
   */
  function PhaseNumber(text: string): (r: Option<nat>)
    ensures r.Some? ==> r.value < U32_BOUND
    ensures Contains(text, "phase one") || MentionsPhaseDigit(text, '1') ==> r == Some(1)
    ensures !Contains(text, "phase ") ==> r.None?
    ensures !NamesPhrase(text) && Contains(text, "phase ") ==>
      r == ParseU32(LeadingDigits(text[Find(text, "phase ").value + 6..]))
  {
    PhrasesMendedNeedPhase(text);
    if Contains(text, "phase one") || MentionsPhaseDigit(text, '1') then Some(1)
    else if Contains(text, "phase two") || MentionsPhaseDigit(text, '2') then Some(2)
    else if Contains(text, "phase three") || MentionsPhaseDigit(text, '3') then Some(3)
    else match Find(text, "phase ")
      case None => None
      case Some(idx) => ParseU32(LeadingDigits(text[idx + 6..]))
  }

  /** Where `w` matches at `i`, its `k`-th character is the text's `i + k`-th. */
  lemma MatchShifted(text: string, w: string, i: int, k: int)
    requires MatchAt(text, w, i) && 0 <= k < |w|
    ensures text[i + k] == w[k]
  {
    assert text[i..i + |w|][k] == w[k];
  }

  /**
   * In `pre` + "phase " + digits + `tail`, with no "phase " in `pre` or in
   * `tail`, a phrase starting with "phase " can only be the one after `pre`.
   */
  lemma OnlyPhaseAfter(pre: string, digits: string, tail: string, w: string, i: int)
    requires AllDigits(digits)
    requires !Contains(pre, "phase ") && !Contains(tail, "phase ")
    requires |w| >= 6 && w[..6] == "phase "
    requires MatchAt(pre + "phase " + digits + tail, w, i)
    ensures i == |pre|
  {
    var text := pre + "phase " + digits + tail;
    var p := |pre|;
    var m := p + 6 + |digits|;
    if i < p < i + 6 {
      MatchShifted(text, w, i, p - i);
    }
    MatchShifted(text, w, i, 0);
    assert text[p] == 'p';
    assert forall k :: p < k < m ==> text[k] != 'p' by {
      forall k | p < k < m ensures text[k] != 'p' {
        if k < p + 6 {
          assert text[k] == "phase "[k - p];
        } else {
          assert text[k] == digits[k - p - 6];
        }
      }
    }
    if i + 6 <= p {
      assert pre[i..i + 6] == text[i..i + 6] == w[..6];
      ContainsAt(pre, "phase ", i);
    } else if i >= m {
      assert tail[i - m..i - m + 6] == text[i..i + 6] == w[..6];
      ContainsAt(tail, "phase ", i - m);
    }
  }

  /** The first "phase " is the one after `pre`, and the digits and `tail` follow it. */
  lemma FirstPhaseAfter(pre: string, digits: string, tail: string)
    requires AllDigits(digits)
    requires !Contains(pre, "phase ") && !Contains(tail, "phase ")
    ensures var text := pre + "phase " + digits + tail;
      Find(text, "phase ") == Some(|pre|) && text[|pre| + 6..] == digits + tail
  {
    var text := pre + "phase " + digits + tail;
    assert text[|pre|..|pre| + 6] == "phase ";
    assert MatchAt(text, "phase ", |pre|);
    OnlyPhaseAfter(pre, digits, tail, "phase ", Find(text, "phase ").value);
    assert text == pre + ("phase " + (digits + tail));
  }

  /** A spelled-out phase word cannot follow "phase " when a digit does. */
  lemma NoSpelledPhaseAfter(pre: string, digits: string, tail: string, w: string)
    requires AllDigits(digits) && digits != []
    requires !Contains(pre, "phase ") && !Contains(tail, "phase ")
    requires w in ["phase one", "phase two", "phase three"]
    ensures !Contains(pre + "phase " + digits + tail, w)
  {
    var text := pre + "phase " + digits + tail;
    assert text[|pre| + 6] == digits[0];
    if Contains(text, w) {
      var i :| 0 <= i <= |text| && MatchAt(text, w, i);
      OnlyPhaseAfter(pre, digits, tail, w, i);
      MatchShifted(text, w, i, 6);
    }
  }

  /** "phase d" occurs exactly when the number starts with the digit `d`. */
  lemma DigitPhraseAfter(pre: string, digits: string, tail: string, w: string)
    requires AllDigits(digits) && digits != []
    requires !Contains(pre, "phase ") && !Contains(tail, "phase ")
    requires |w| == 7 && w[..6] == "phase "
    ensures Contains(pre + "phase " + digits + tail, w) <==> digits[0] == w[6]
  {
    var text := pre + "phase " + digits + tail;
    var p := |pre|;
    assert text[p + 6] == digits[0];
    if Contains(text, w) {
      var i :| 0 <= i <= |text| && MatchAt(text, w, i);
      OnlyPhaseAfter(pre, digits, tail, w, i);
      MatchShifted(text, w, i, 6);
    }
    if digits[0] == w[6] {
      assert text[p..p + 7] == w;
      ContainsAt(text, w, p);
    }
  }

  /** Which fixed phrases of the source occur is decided by the first digit alone. */
  lemma NoPhrasesAfter(pre: string, digits: string, tail: string)
    requires AllDigits(digits) && digits != []
    requires !Contains(pre, "phase ") && !Contains(tail, "phase ")
    ensures var text := pre + "phase " + digits + tail;
      && !Contains(text, "phase one") && !Contains(text, "phase two") && !Contains(text, "phase three")
      && (Contains(text, "phase 1") <==> digits[0] == '1')
      && (Contains(text, "phase 2") <==> digits[0] == '2')
      && (Contains(text, "phase 3") <==> digits[0] == '3')
  {
    NoSpelledPhaseAfter(pre, digits, tail, "phase one");
    NoSpelledPhaseAfter(pre, digits, tail, "phase two");
    NoSpelledPhaseAfter(pre, digits, tail, "phase three");
    DigitPhraseAfter(pre, digits, tail, "phase 1");
    DigitPhraseAfter(pre, digits, tail, "phase 2");
    DigitPhraseAfter(pre, digits, tail, "phase 3");
  }

  /** "phase d" ended by a non-digit occurs exactly when the number is the digit `d` alone. */
  lemma MentionAfter(pre: string, digits: string, tail: string, d: char)
    requires AllDigits(digits) && digits != []
    requires !Contains(pre, "phase ") && !Contains(tail, "phase ")
    requires tail == [] || !IsDigit(tail[0])
    ensures MentionsPhaseDigit(pre + "phase " + digits + tail, d) <==> digits == [d]
  {
    var text := pre + "phase " + digits + tail;
    var w := "phase " + [d];
    var p := |pre|;
    assert text[p + 6] == digits[0];
    assert |digits| > 1 ==> text[p + 7] == digits[1];
    assert |digits| == 1 && |tail| > 0 ==> text[p + 7] == tail[0];
    if MentionsPhaseDigit(text, d) {
      var i :| 0 <= i <= |text| && MatchAt(text, w, i) && (i + 7 == |text| || !IsDigit(text[i + 7]));
      OnlyPhaseAfter(pre, digits, tail, w, i);
      MatchShifted(text, w, i, 6);
    }
    if digits == [d] {
      assert text[p..p + 7] == w;
      assert MatchAt(text, w, p);
    }
  }

  /**
   * The intended reading: after a `pre` without "phase ", "phase " followed
   * by any 32-bit number, then by a non-digit or the end, and by a `tail`
   * without "phase ", gives that number — "edit phase 12 please" among them.
   */
  lemma PhaseNumberRead(pre: string, n: nat, tail: string)
    requires n < U32_BOUND
    requires tail == [] || !IsDigit(tail[0])
    requires !Contains(pre, "phase ") && !Contains(tail, "phase ")
    ensures PhaseNumber(pre + "phase " + NatToString(n) + tail) == Some(n)
  {
    var digits := NatToString(n);
    NoSpelledPhaseAfter(pre, digits, tail, "phase one");
    NoSpelledPhaseAfter(pre, digits, tail, "phase two");
    NoSpelledPhaseAfter(pre, digits, tail, "phase three");
    MentionAfter(pre, digits, tail, '1');
    MentionAfter(pre, digits, tail, '2');
    MentionAfter(pre, digits, tail, '3');
    if digits == ['1'] || digits == ['2'] || digits == ['3'] {
      assert DigitsValue(digits) == DigitValue(digits[0]);
    } else {
      FirstPhaseAfter(pre, digits, tail);
      LeadingDigitsOf(digits, tail);
      ParseFormatted(n, U32_BOUND);
    }
  }

  /**
   * Where the two readings agree: the source reads the number right when
   * a non-digit follows it and it is one digit or starts with 4 to 9.
   */
  lemma PhaseNumberAsWrittenRead(pre: string, n: nat, tail: string)
    requires n < U32_BOUND
    requires n < 10 || NatToString(n)[0] !in ['1', '2', '3']
    requires tail != [] && !IsDigit(tail[0])
    requires !Contains(pre, "phase ") && !Contains(tail, "phase ")
    ensures PhaseNumberAsWritten(pre + "phase " + NatToString(n) + tail) == Some(n)
  {
    var digits := NatToString(n);
    var text := pre + "phase " + digits + tail;
    NoPhrasesAfter(pre, digits, tail);
    if n == 1 {
      assert digits[0] == '1';
      assert PhaseNumberAsWritten(text) == Some(1);
    } else if n == 2 {
      assert digits[0] == '2';
      assert PhaseNumberAsWritten(text) == Some(2);
    } else if n == 3 {
      assert digits[0] == '3';
      assert PhaseNumberAsWritten(text) == Some(3);
    } else {
      assert !NamesPhraseAsWritten(text);
      FirstPhaseAfter(pre, digits, tail);
      var after := text[|pre| + 6..];
      LeadingDigitsOf(digits, tail);
      assert LeadingDigits(after) == digits != after;
      ParseFormatted(n, U32_BOUND);
      assert PhaseNumberAsWritten(text) == ParseU32(digits);
    }
  }

  /**
   * The source reads a number of two or more digits starting with 1, 2 or
   * 3 as that first digit alone.
   */
  lemma PhaseReadAsFirstDigit(pre: string, digits: string, tail: string)
    requires AllDigits(digits) && |digits| >= 2 && digits[0] in ['1', '2', '3']
    requires !Contains(pre, "phase ") && !Contains(tail, "phase ")
    ensures PhaseNumberAsWritten(pre + "phase " + digits + tail) == Some(DigitValue(digits[0]))
  {
    NoPhrasesAfter(pre, digits, tail);
  }

  /**
   * The source finds no number when the digits after "phase " end the
   * text (and do not start with 1, 2 or 3), where the mended reading
   * finds them.
   */
  lemma PhaseAtEndLost(pre: string, digits: string)
    requires AllDigits(digits) && digits != [] && digits[0] !in ['1', '2', '3']
    requires !Contains(pre, "phase ")
    ensures PhaseNumberAsWritten(pre + "phase " + digits).None?
  {
    var text := pre + "phase " + digits;
    assert text == pre + "phase " + digits + [];
    NoPhrasesAfter(pre, digits, []);
    FirstPhaseAfter(pre, digits, []);
    LeadingDigitsOf(digits, []);
  }

  /** " please" holds no "phase ". */
  lemma NoPhaseInPlease()
    ensures !Contains(" please", "phase ")
  {
    var tail := " please";
    assert !MatchAt(tail, "phase ", 0) by { assert tail[0] != 'p'; }
    assert !MatchAt(tail, "phase ", 1) by { assert tail[1..7][1] == 'l'; }
  }

  /** "edit phase 12 please": the source reads phase 1, the mended reading phase 12. */
  lemma PhaseTwelveReadAsOne()
    ensures PhaseNumberAsWritten("edit phase 12 please") == Some(1)
    ensures PhaseNumber("edit phase 12 please") == Some(12)
  {
    var pre, digits, tail := "edit ", "12", " please";
    NoPhaseInPlease();
    assert NatToString(12) == digits by {
      assert NatToString(1) == "1";
    }
    assert pre + "phase " + digits + tail == "edit phase 12 please";
    PhaseReadAsFirstDigit(pre, digits, tail);
    PhaseNumberRead(pre, 12, tail);
  }

  /** "phase 4" at the end of the text: the source finds no phase, the mended reading phase 4. */
  lemma PhaseFourAtEndLost()
    ensures PhaseNumberAsWritten("phase 4").None?
    ensures PhaseNumber("phase 4") == Some(4)
  {
    assert !Contains([], "phase ");
    assert "phase 4" == [] + "phase " + "4" == [] + "phase " + NatToString(4) + [];
    PhaseAtEndLost([], "4");
    PhaseNumberRead([], 4, []);
  }
}
