# A verified model of the orchestrator's sequential core

This project models the deterministic logic beneath a voice-driven coding
orchestrator: the Rust workspace that turns speech into commands, routes them
to coding executors and shows their progress in a terminal app, plus the small
Python script that fetches speech from DeepInfra's Kokoro text-to-speech
service. The sockets, audio devices, subprocesses and terminal drawing are left
out. What remains is modelled in Dafny and proved against the promises the code
makes:

- **Payload extraction** (`deepinfra.py`): finding the audio string in a JSON
  reply, stripping a data-URL head, restoring the padding and base64-decoding it
  as section 4 of RFC 4648 describes (modules `Base64`, `DeepInfra`).
- **Artifacts** (`src/artifacts.rs`): YAML deep merge, JSON-block extraction,
  the phasing document's headers and number words, patch-path confinement and
  the patch batch's bookkeeping (`Artifacts`).
- **State machines**: the session lifecycle (`SessionLifecycle`), the
  workstation's confirmation flow (`WorkstationStates`), the headless core's
  pending confirmation (`OrchestratorCoreModel`) and the orchestrator's action
  queue (`ActionQueue`).
- **Bounded buffers and scrolling**: conversation memory, the session event
  history, the search query history, the terminal app's output and log panes
  and their scroll offsets (`ConversationMemoryModel`, `BoundedQueue`,
  `SessionEvents`, `SearchDistill`, `TuiStateModel`, `OrchestratorTypes`,
  `OrchestratorApp`), and the persisted session records (`SessionRecords`).
- **Text utilities**: byte- and character-based line wrapping (`TextWrap`,
  `TuiWrap`), `.env` parsing (`DotEnv`, `Xtask`) and the relay URL rewriting
  (`Xtask`).
- **Classifiers**: confirmation phrases (`Confirmation`), the router's actions
  and intents (`IntentRouter`), log types and content (`ControlCenterLogs`),
  executor log summaries (`ExecutorSummary`) and LLM command plans
  (`LlmTypes`, `PlanExtractor`).
- **Say-process bookkeeping** for local speech on macOS (`TtsSay`).

Shared pieces: `StrUtil` (strings.dfy) models the Rust and Python string
primitives the code leans on: Unicode whitespace trimming, `lines`, `replace`,
`split_once`, unsigned parsing, decimal formatting and UTF-8 byte lengths.
`JsonValue` (json.dfy) is one value datatype standing for serde_json,
serde_yaml and Python `json` values. Parsers and serialisers from outside the
code (serde, Python's `json`), clocks, random bytes, hashes, the filesystem and
the environment are parameters of the functions that use them.

State that the source changes in place is modelled as classes whose methods
update their fields under `modifies` clauses and state the new value of what
they change; where a class gathers its fields in a `View()` value
(`SessionContext`, `TuiState`, the orchestrator's action queue, the scroll
panes), its methods state the whole new view. Pure code is modelled as
functions and lemmas.

## Model

| member | source | states |
|---|---|---|
| Base64.SextetOfAlphabet | deepinfra.py:63-66 | the decoding table inverts the RFC 4648 alphabet |
| Base64.DecodeFrom | deepinfra.py:63-66 | the decoding loop only appends to the bytes already decoded |
| Base64.Decode | deepinfra.py:63-66 | `b64decode` rejects a string that is not ASCII |
| Base64.Encode | deepinfra.py:58-66 | the reference encoder: its length is a multiple of four, 4·⌈n/3⌉, and it is ASCII |
| Base64.DecodeEncode | deepinfra.py:63-66 | decoding the encoding of any byte string gives the byte string back |
| Base64.DecodeTrailing | deepinfra.py:63-66 | complete quads decode the same whatever follows them |
| Base64.DecodeLoneCharFails | deepinfra.py:63-66 | one data character after complete quads is a decoding error |
| Base64.EncodePaddingTail | deepinfra.py:58-61 | an encoding ends in "==" when one byte is left over and in "=" when two are |
| DeepInfra.SelectApiKey | deepinfra.py:10-16 | a non-empty DEEPINFRA_API_KEY wins, else a non-empty DEEPINFRA_API_TOKEN; the script exits with status 1 exactly when neither is set |
| DeepInfra.AfterFirstComma | deepinfra.py:54-56 | everything up to and including the first comma goes; a string without a comma is kept |
| DeepInfra.Pad | deepinfra.py:58-61 | appends at most three '=' so that the length becomes a multiple of four, and leaves an aligned string as it was |
| DeepInfra.AudioField | deepinfra.py:43-49 | a truthy top-level "audio" is used; any other value comes from `output[0]["audio"]` and only when the top-level one is missing or falsy and `output` is a list whose first item is an object |
| DeepInfra.ExtractBase64Audio | deepinfra.py:36-66 | a missing, non-string or empty audio value gives None |
| DeepInfra.OutputFallbackUsed | deepinfra.py:45-49 | with no truthy top-level "audio", the non-empty string at `output[0]["audio"]` is the one stripped of its prefix, padded and decoded |
| DeepInfra.HandleResponse | deepinfra.py:82-90 | audio is written to the output file only when it is non-empty; a reply that is not a JSON object crashes the script |
| DeepInfra.TopLevelAudioWins | deepinfra.py:43-49 | a non-empty top-level "audio" string is decoded even when "output" holds audio too |
| DeepInfra.FallbackNeedsListOfObject | deepinfra.py:45-49 | the fallback is taken only from a non-empty "output" list whose first element is an object |
| DeepInfra.AfterFirstCommaOfDataUrl | deepinfra.py:54-56 | a data URL loses exactly its media-type head |
| DeepInfra.DataUrlRoundTrip | deepinfra.py:36-66 | a data URL carrying the encoding of some bytes yields those bytes |
| DeepInfra.MissingPaddingRestored | deepinfra.py:58-66 | an encoding whose '=' padding was cut off still decodes to the original bytes |
| Artifacts.Components | src/artifacts.rs:439-456 | `Path::components`: a root or "." component can only come first |
| Artifacts.ComponentsOfName | src/artifacts.rs:439-456 | a plain name is one normal component |
| Artifacts.PathJoin | src/artifacts.rs:442-449 | `join` with an absolute path gives that path; otherwise the result starts with the base and ends with the path |
| Artifacts.FileName | src/artifacts.rs:702-707 | a file name is one of the path's normal components |
| Artifacts.ResolvePatchPath | src/artifacts.rs:440-449 | an absolute patch path is placed as it is |
| Artifacts.NormalizePatchPathAsWritten | src/artifacts.rs:439-456 | accepts exactly the placed paths whose components start with `artifacts`, and returns the placed path |
| Artifacts.NormalizePatchPath | src/artifacts.rs:439-456 | the corrected normaliser returns the placed path when it accepts |
| Artifacts.NormalizeRefinesAsWritten | src/artifacts.rs:439-456 | the corrected normaliser accepts what the written one accepts, minus the paths with a ".." component |
| Artifacts.AcceptedPathConfined | src/artifacts.rs:451-453 | every path the corrected normaliser accepts resolves to a place inside `artifacts` |
| Artifacts.ConfinedWhenStartsInside | src/artifacts.rs:451-453 | a path under `artifacts` without ".." components resolves inside it |
| Artifacts.ParentStepAccepted | src/artifacts.rs:439-456 | the written test accepts "../name", placed as "artifacts/../name" |
| Artifacts.ParentStepLeadsOutside | src/artifacts.rs:439-456 | "artifacts/../name" resolves to "name" beside `artifacts`, outside it |
| Artifacts.ParentStepRefused | src/artifacts.rs:439-456 | the corrected normaliser refuses "../name" |
| Artifacts.AbsolutePathRejected | src/artifacts.rs:441-453 | an absolute patch path is never accepted |
| Artifacts.SidecarName | src/artifacts.rs:702-707 | "<file name>.<kind>-<timestamp>", with "artifact" standing in when there is no file name |
| Artifacts.LookupUnique | src/artifacts.rs:710-728 | in a mapping without duplicate keys each entry is what its key finds |
| Artifacts.YamlEqReflexive | src/artifacts.rs:729-744 | serde_yaml equality holds between a well-formed value and itself |
| Artifacts.KeyIndex | src/artifacts.rs:715-716 | finds the entry a key's lookup returns, and nothing exactly when the lookup fails |
| Artifacts.MergeYaml | src/artifacts.rs:710-745 | the merge loop computes the merge specification's value and change flag |
| Artifacts.MergeUnchanged | src/artifacts.rs:710-745 | a merge that reports no change leaves the base as it was |
| Artifacts.MembersUnchanged | src/artifacts.rs:712-728 | a mapping merge that reports no change returns the base entries |
| Artifacts.EntryUnchanged | src/artifacts.rs:715-724 | one patch entry that reports no change leaves the entries as they were |
| Artifacts.EntryKeepsAndAddsKey | src/artifacts.rs:715-724 | merging one patch entry keeps every base key and adds the entry's key |
| Artifacts.MergeKeepsAndAddsKeys | src/artifacts.rs:712-728 | after a mapping merge every base key is still there and every patch key is present |
| Artifacts.MergeSelf | src/artifacts.rs:737-744 | merging a well-formed value into itself changes nothing and reports no change, so the merge is idempotent |
| Artifacts.MergeMembersSelf | src/artifacts.rs:712-728 | merging any suffix of a mapping's own entries into it changes nothing |
| Artifacts.SequenceReplacedWhole | src/artifacts.rs:729-744 | a sequence is replaced by the patch's sequence as a whole, and only when the two differ |
| Artifacts.YamlMergeText | src/artifacts.rs:475-500 | a patch text that does not parse is an error; a no-change result needs a blank or parsable file |
| Artifacts.BlankFileMerge | src/artifacts.rs:478-480 | a blank file is merged as an empty mapping |
| Artifacts.SelfPatchWritesNothing | src/artifacts.rs:489-494 | re-applying a file's own content as a patch writes nothing |
| Artifacts.IndentIsTrimStart | src/artifacts.rs:634 | a line's indentation is exactly what `trim_start` removes |
| Artifacts.IsFenceTrimmed | src/artifacts.rs:634 | a fence line is one whose left-trimmed text starts with three backticks |
| Artifacts.UntilFenceAt | src/artifacts.rs:633-636 | the fenced body stops exactly at the first fence line after the opening one |
| Artifacts.ExtractJsonBlock | src/artifacts.rs:623-654 | the line loop computes the JSON-block specification |
| Artifacts.JsonBlock | src/artifacts.rs:623-646 | a reply opening with a fence never yields a blank block |
| Artifacts.FencedBody | src/artifacts.rs:632-641 | the loop's buffer is the lines before the closing fence joined by newlines, leading empty lines adding no separator |
| Artifacts.JoinStep | src/artifacts.rs:637-640 | appending a line to the buffer adds a newline only when the buffer is not empty |
| Artifacts.UnfencedBlockShape | src/artifacts.rs:648-654 | an unfenced block starts with '{', ends with '}' and spans the first '{' to the last '}' |
| Artifacts.UnfencedNeedsBraces | src/artifacts.rs:648-654 | without a '{' or without a '}' there is no unfenced block |
| Artifacts.BraceBlockShape | src/artifacts.rs:647-652 | the text from the first '{' to the last '}' starts with '{', ends with '}' and has no '{' before it nor '}' after it |
| Artifacts.HeaderSeparator | src/artifacts.rs:839-852 | the cut is the first em dash when there is one, else the first hyphen, else nothing |
| Artifacts.SplitHeader | src/artifacts.rs:839-852 | None exactly without a dash; both sides come back trimmed |
| Artifacts.SplitHeaderAt | src/artifacts.rs:839-852 | a header "left — right" splits into its left and right sides |
| Artifacts.WordValue | src/artifacts.rs:876-904 | the known number words have values up to sixty |
| Artifacts.WordStep | src/artifacts.rs:909-931 | "and" leaves the running value; "hundred" multiplies it by 100, a bare "hundred" giving 100; a known word adds its value, an unknown word fails; the value never decreases |
| Artifacts.WordsValue | src/artifacts.rs:871-874 | no words give None |
| Artifacts.WordsToNumber | src/artifacts.rs:871-934 | the word loop computes the number-word specification |
| Artifacts.UnknownWordFails | src/artifacts.rs:922 | an unknown word anywhere makes the whole phrase fail |
| Artifacts.AndIsSkipped | src/artifacts.rs:910-912 | "and" is ignored wherever it stands |
| Artifacts.WordsExamples | src/artifacts.rs:871-934 | "six" is 6, "twenty one" 21, "one hundred and five" 105, a bare "hundred" 100, and "seventy" is unknown |
| Artifacts.ParsePhaseNumber | src/artifacts.rs:855-868 | a number in digits is read as a u32 before number words are tried |
| Artifacts.DigitNumber | src/artifacts.rs:855-868 | every number below 2^32 written in decimal digits reads as itself |
| Artifacts.WordNumber | src/artifacts.rs:855-868 | every number word of the table, standing alone, reads as its value ("six" as 6) |
| Artifacts.KnownWordLetters | src/artifacts.rs:876-902 | the number words are non-empty lowercase ASCII words, neither "and" nor "hundred" |
| Artifacts.PhaseHeaderShape | src/artifacts.rs:820-836 | a header has a dash, its left side starts with "phase " in any letter case, and its title is the trimmed right side |
| Artifacts.ParsePhaseHeader | src/artifacts.rs:820-836 | a header always holds a dash after trimming, and its title is already trimmed |
| Artifacts.HeaderSplits | src/artifacts.rs:839-853 | "phase <token> <dash> <title>" is its own trim and splits at the dash into "phase <token>" and the title, when neither piece holds a dash or surrounding blanks |
| Artifacts.HeaderParsed | src/artifacts.rs:820-836 | such a header parses to the number its token names and to the title, for an em dash and a hyphen alike |
| Artifacts.HeaderRoundTrip | src/artifacts.rs:820-836 | every header written "phase <n> - <title>" with a 32-bit n and a title free of em dashes and outer blanks reads back as (n, title) |
| Artifacts.EmDashHeaderParsed | src/artifacts.rs:942-952 | "phase six — living artifacts" parses to phase 6 titled "living artifacts", as the source's own test expects |
| Artifacts.HyphenHeaderParsed | src/artifacts.rs:942-952 | "phase 7 - voice navigation" parses to phase 7 titled "voice navigation", as the source's own test expects |
| Artifacts.Finish | src/artifacts.rs:792-817 | a finished phase keeps its number and title, its talk track is the trimmed joined body, and its hash is the talk track's |
| Artifacts.Close | src/artifacts.rs:754-765 | closing appends the open phase's entry, if there is one |
| Artifacts.Extend | src/artifacts.rs:758-760 | a body line joins the open phase, if there is one |
| Artifacts.ParsePhasing | src/artifacts.rs:748-770 | the line loop with its open builder computes the phasing specification |
| Artifacts.ScanHeads | src/artifacts.rs:748-770 | each header opens exactly one phase, with its number and title, in document order |
| Artifacts.PhasesFollowHeaders | src/artifacts.rs:748-770 | a document's phases are its headers, in order |
| Artifacts.PreambleIgnored | src/artifacts.rs:752-761 | text before the first header belongs to no phase |
| Artifacts.Record | src/artifacts.rs:352-389 | an applied change is listed, a failure is rejected with its reason, phasing.md changed by a diff sets the flag, and a failed reject write is an error |
| Artifacts.Bookkeep | src/artifacts.rs:352-389 | a batch that completes had every path accepted, keeps the earlier applied and rejected entries as prefixes, and adds at most one entry per patch |
| Artifacts.Targets | src/artifacts.rs:353 | each patch is placed by `normalize_patch_path` as written |
| Artifacts.TargetsMended | src/artifacts.rs:439-456 | each patch is placed by the corrected normaliser |
| Artifacts.TargetsMendedRefine | src/artifacts.rs:439-456 | a corrected placement succeeds exactly when the written one does and has no ".." step, and then they agree |
| Artifacts.ApplyPatches | src/artifacts.rs:339-397 | the batch loop, placing each patch with the as-written normaliser, computes the bookkeeping specification |
| Artifacts.EscapingBatchApplied | src/artifacts.rs:339-397 | a batch of the one patch "../name" that applies reports "artifacts/../name", a path outside `artifacts` |
| Artifacts.EscapingBatchRefused | src/artifacts.rs:439-456 | the batch placed by the corrected normaliser fails on that patch |
| Artifacts.RecordOutcome | src/artifacts.rs:355-388 | one patch's outcome appends the target to the applied or rejected list, sets the phasing flag only for a changed phasing.md diff, and stops on a failed reject write |
| Artifacts.TargetsConfined | src/artifacts.rs:439-456 | every placement of the corrected normaliser lies inside `artifacts` |
| Artifacts.ReportedPathsConfined | src/artifacts.rs:352-389 | a report built from confined placements holds only confined paths |
| Artifacts.RecordKeepsConfined | src/artifacts.rs:355-388 | recording a confined placement keeps every applied and rejected path confined |
| Artifacts.BatchStaysInside | src/artifacts.rs:339-397 | with the corrected normaliser, every path the batch reports, applied or rejected, lies inside `artifacts` |
| Artifacts.ReportGrowsByOnePerPatch | src/artifacts.rs:352-389 | each patch adds at most one entry and earlier entries stay |
| Artifacts.PhasingChangedOnlyByPhasingDiff | src/artifacts.rs:356-361 | the phasing flag is set only by a unified diff that changed phasing.md |
| Artifacts.RefusedPathAborts | src/artifacts.rs:353 | one refused path fails the whole batch |
| Confirmation.Classify | crates/router/src/confirmation.rs:4-30 | never another router action; each of the five answers holds exactly under its rule: a continue pattern gives ContinuePrevious; otherwise a new-session pattern gives StartNew; otherwise a decline gives DeclineSession; otherwise a bare affirmative gives AmbiguousConfirmation; anything else, and only that, is UnintelligibleResponse |
| Confirmation.AnalyzeConfirmationResponse | crates/router/src/confirmation.rs:4-30 | never another router action; on the lowercased answer and its words, ContinuePrevious, StartNew, DeclineSession, AmbiguousConfirmation and UnintelligibleResponse each hold exactly under the rule of the pattern precedence, the last exactly when no earlier rule applies |
| Confirmation.CaseInsensitive | crates/router/src/confirmation.rs:5 | lowercasing the answer first changes nothing |
| Confirmation.ContinueTakesPrecedence | crates/router/src/confirmation.rs:8-11 | a continue pattern anywhere in the answer wins, as in "yes continue" |
| Confirmation.NewBeforeDecline | crates/router/src/confirmation.rs:13-21 | a new-session pattern wins over any decline when no continue pattern is present |
| Confirmation.AffirmativeWordsPlain | crates/router/src/confirmation.rs:49-53 | the bare affirmatives are lowercase single words holding none of the other patterns |
| Confirmation.SingleWord | crates/router/src/confirmation.rs:4-6 | a lowercase one-word answer is classified on that word alone |
| Confirmation.AffirmativeWordIsAmbiguous | crates/router/src/confirmation.rs:23-53 | a single "yes", "ok", "sure" and the like asks for clarification |
| Confirmation.NegativeWordDeclines | crates/router/src/confirmation.rs:38-42 | a bare no, nope or nah declines |
| Confirmation.CreateConfirmationResponse | crates/router/src/confirmation.rs:69-85 | the response keeps the action, has no prompt and a reason, and a confidence in [0, 1] that is zero exactly for a non-confirmation action |
| Confirmation.ReasonIdentifiesAction | crates/router/src/confirmation.rs:70-77 | different actions get different reasons |
| SessionLifecycle.TransitionShape | crates/orchestrator-core/src/session/state.rs:61-72 | Completed and Failed have no moves out, no move leads to Idle or stays put, and Idle can only start running |
| SessionLifecycle.NoWayBack | crates/orchestrator-core/src/session/state.rs:61-84 | without a reset a session never returns to Idle, and a finished session never moves again |
| SessionLifecycle.SessionStateMachine.constructor | crates/orchestrator-core/src/session/state.rs:51-55 | a new machine is Idle |
| SessionLifecycle.SessionStateMachine.CanTransitionTo | crates/orchestrator-core/src/session/state.rs:61-72 | answers with the seven allowed (from, to) pairs |
| SessionLifecycle.SessionStateMachine.TransitionTo | crates/orchestrator-core/src/session/state.rs:74-84 | succeeds exactly on an allowed pair and then holds the new state; a refusal reports both states and changes nothing |
| SessionLifecycle.SessionStateMachine.Start | crates/orchestrator-core/src/session/state.rs:86-88 | runs from Idle or Paused, else changes nothing |
| SessionLifecycle.SessionStateMachine.Pause | crates/orchestrator-core/src/session/state.rs:90-92 | pauses only a running session |
| SessionLifecycle.SessionStateMachine.Resume | crates/orchestrator-core/src/session/state.rs:94-100 | succeeds only from Paused; elsewhere it reports "Cannot resume from state" and changes nothing |
| SessionLifecycle.SessionStateMachine.Complete | crates/orchestrator-core/src/session/state.rs:102-104 | completes only a running or paused session |
| SessionLifecycle.SessionStateMachine.Fail | crates/orchestrator-core/src/session/state.rs:106-108 | fails only a running or paused session, with the given reason |
| SessionLifecycle.SessionStateMachine.Reset | crates/orchestrator-core/src/session/state.rs:110-112 | goes back to Idle from anywhere |
| WorkstationStates.ConfirmationIdAt | crates/orchestrator-core/src/state.rs:124-128 | the confirmation id is "confirm_" and the clock's milliseconds |
| WorkstationStates.Step | crates/orchestrator-core/src/state.rs:120-199 | a success reports the old and the new state; anything else leaves the state unchanged |
| WorkstationStates.RequestAwaitsConfirmation | crates/orchestrator-core/src/state.rs:123-140 | a request from Idle awaits confirmation of the same prompt and executor type |
| WorkstationStates.ConfirmChecksId | crates/orchestrator-core/src/state.rs:143-164 | the awaited id starts the run with the same prompt and executor type; any other id is an error that changes nothing |
| WorkstationStates.DeclineReturnsToIdle | crates/orchestrator-core/src/state.rs:167-173 | a decline returns to Idle whatever id it carries |
| WorkstationStates.RunEndsInIdle | crates/orchestrator-core/src/state.rs:176-190 | a completed or failed run returns to Idle |
| WorkstationStates.OtherPairsInvalid | crates/orchestrator-core/src/state.rs:193-198 | every other (state, event) pair is an invalid transition that leaves the state as it was |
| WorkstationStates.ExecutionFlow | crates/orchestrator-core/src/state.rs:230-270 | request, confirm with the issued id and complete lead back to Idle, as the source's own test runs them |
| WorkstationStates.SuffixChar | crates/orchestrator-core/src/state.rs:205-215 | every random byte becomes a character of [0-9a-z] |
| WorkstationStates.SuffixCharOnto | crates/orchestrator-core/src/state.rs:205-215 | every character of [0-9a-z] can be drawn |
| WorkstationStates.GenerateSessionId | crates/orchestrator-core/src/state.rs:202-216 | the id is the timestamp, '_' and six characters of [0-9a-z] |
| WorkstationStates.Notifications | crates/orchestrator-core/src/state.rs:109-114 | every listener is told the same old and new state, in order |
| WorkstationStates.StateManager.constructor | crates/orchestrator-core/src/state.rs:84-90 | a new manager is Idle with no listeners |
| WorkstationStates.StateManager.GetState | crates/orchestrator-core/src/state.rs:92-95 | returns the current state |
| WorkstationStates.StateManager.AddListener | crates/orchestrator-core/src/state.rs:97-100 | appends a listener and changes nothing else |
| WorkstationStates.StateManager.HandleEvent | crates/orchestrator-core/src/state.rs:102-117 | applies the transition; only a success is announced, to every listener |
| OrchestratorCoreModel.BlankTextIgnored | crates/orchestrator-core/src/lib.rs:40-41 | text that trims to nothing sends nothing, launches nothing and keeps the pending slot |
| OrchestratorCoreModel.UserTextStep | crates/orchestrator-core/src/lib.rs:38-96 | messages and launches only grow, by at most one launch; the result is an error exactly when a launch was attempted and failed; the pending slot changes only to a new entry, with confirmation required and nothing launched |
| OrchestratorCoreModel.ConfirmStep | crates/orchestrator-core/src/lib.rs:98-130 | messages and launches only grow, by at most one launch, and an error means a failed launch; a launch happens only on acceptance and runs the pending prompt, clearing the slot; no response creates a pending entry |
| OrchestratorCoreModel.CannotParseReports | crates/orchestrator-core/src/lib.rs:54-61 | an unparsable request emits one info status with the router's reason, or "could not understand" |
| OrchestratorCoreModel.UserTextDecides | crates/orchestrator-core/src/lib.rs:40-52 | text that does not trim to nothing is decided by the router's answer on the trimmed text |
| OrchestratorCoreModel.LaunchWaitsForConfirmation | crates/orchestrator-core/src/lib.rs:62-85 | with confirmation required a pending entry is stored and the prompt carries the same id and prompt, the trimmed text when the router gives none; nothing launches |
| OrchestratorCoreModel.LaunchImmediately | crates/orchestrator-core/src/lib.rs:86-93 | without confirmation the executor launches at once |
| OrchestratorCoreModel.ForeignConfirmIgnored | crates/orchestrator-core/src/lib.rs:99-110 | a response for something else, or naming another id, changes nothing |
| OrchestratorCoreModel.AcceptLaunchesOnce | crates/orchestrator-core/src/lib.rs:116-122 | accepting launches the pending prompt once and clears it |
| OrchestratorCoreModel.DeclineCancels | crates/orchestrator-core/src/lib.rs:123-127 | declining clears the pending entry and announces "executor launch canceled" |
| OrchestratorCoreModel.PromptThenAccept | crates/orchestrator-core/src/lib.rs:62-122 | the prompt a confirmation announces is the one launched when its id is accepted |
| OrchestratorCoreModel.OrchestratorCore.constructor | crates/orchestrator-core/src/lib.rs:21-23 | a new core requires confirmation and has nothing pending |
| OrchestratorCoreModel.OrchestratorCore.SetRequireConfirmation | crates/orchestrator-core/src/lib.rs:25 | sets the flag and nothing else |
| OrchestratorCoreModel.OrchestratorCore.HandleUserText | crates/orchestrator-core/src/lib.rs:38-96 | the new pending slot, sent messages and launches are those of the user-text step |
| OrchestratorCoreModel.OrchestratorCore.HandleConfirm | crates/orchestrator-core/src/lib.rs:98-130 | the new pending slot, sent messages and launches are those of the confirm step |
| ActionQueue.Pad4 | src/orchestrator.rs:61-65 | `{:04}`: at least four digits with the number's value, exactly four below 10000 |
| ActionQueue.TurnId | src/orchestrator.rs:60-73 | the turn id is the timestamp, '-' and four digits worth the random number modulo 10000 |
| ActionQueue.DebugEnabled | src/orchestrator.rs:101-104 | queue tracing is on exactly when the variable is set and is "1" or four characters that lower-case to "true" |
| ActionQueue.EnqueueStep | src/orchestrator.rs:131-139 | refused exactly while an interrupt is pending, changing nothing; otherwise the action joins the back |
| ActionQueue.ExecuteNextStep | src/orchestrator.rs:143-182 | an interrupt clears the queue and the flag and returns to conversing; an action runs only when the queue is non-empty and nothing is executing, and then it is the oldest, it leaves the queue and the state is Completed |
| ActionQueue.DrainIsFifo | src/orchestrator.rs:131-166 | actions run in the order they were enqueued |
| ActionQueue.InterruptClears | src/orchestrator.rs:145-151 | whatever was enqueued, an interrupt empties the queue at the next step |
| ActionQueue.Orchestrator.constructor | src/orchestrator.rs:100-114 | a new orchestrator is conversing with an empty queue and no interrupt |
| ActionQueue.Orchestrator.BeginTurn | src/orchestrator.rs:122-127 | the new turn gets a fresh turn id and becomes the current turn |
| ActionQueue.Orchestrator.Enqueue | src/orchestrator.rs:131-139 | the new state is that of the enqueue step |
| ActionQueue.Orchestrator.ExecuteNext | src/orchestrator.rs:143-182 | the new state and the result are those of the execute step |
| ActionQueue.Orchestrator.HasPending | src/orchestrator.rs:226-229 | holds exactly when the queue is non-empty |
| ActionQueue.Orchestrator.QueueSize | src/orchestrator.rs:231-234 | the queue's length |
| ActionQueue.Orchestrator.Interrupt | src/orchestrator.rs:241-243 | sets the flag and changes nothing else |
| TextWrap.ExtractPrefix | crates/orchestrator/src/utils/text_wrap.rs:53-77 | the line splits into prefix and rest; the prefix is empty or a listed prefix the line starts with, possibly with its following space; no listed prefix gives an empty prefix |
| TextWrap.PrefixesShort | crates/orchestrator/src/utils/text_wrap.rs:54-62 | every listed prefix is ASCII and at most ten bytes |
| TextWrap.ExtractedPrefixShort | crates/orchestrator/src/utils/text_wrap.rs:63-71 | an extracted prefix takes at most eleven bytes, so the first line keeps room for content |
| TextWrap.DelimiterBreak | crates/orchestrator/src/utils/text_wrap.rs:93-100 | a punctuation cut falls just after one of the listed delimiters inside the window |
| TextWrap.CutIn | crates/orchestrator/src/utils/text_wrap.rs:85-103 | the cut stays within the window and its byte width, and takes at least one character of a non-empty window |
| TextWrap.CutInShape | crates/orchestrator/src/utils/text_wrap.rs:85-103 | the cut is the whole window, or falls just after a space or one of the listed delimiters |
| TextWrap.CutAfterLastSpace | crates/orchestrator/src/utils/text_wrap.rs:85-90 | whenever a space of the window starts past half the width in bytes, the cut falls just after the window's last space, with no space between the cut and the window's end |
| TextWrap.FindBreakPoint | crates/orchestrator/src/utils/text_wrap.rs:80-104 | fails exactly when the text is too wide and byte `max_width` is inside a character; a text that fits is taken whole; otherwise the cut is `CutIn`'s cut of the window of the first `max_width` bytes (the rule CutInShape and CutAfterLastSpace state), fits `max_width` bytes and is never empty |
| TextWrap.BreakPoint | crates/orchestrator/src/utils/text_wrap.rs:80-104 | the cut at the last character boundary within the width: it always fits and, for a width of four bytes or more, takes at least one character |
| TextWrap.BreakPointAgrees | crates/orchestrator/src/utils/text_wrap.rs:80-104 | where the source's cut exists it equals the boundary-safe cut |
| TextWrap.PiecesAgree | crates/orchestrator/src/utils/text_wrap.rs:27-43 | where the source's loop completes it cuts the same pieces as the boundary-safe loop |
| TextWrap.PiecesFit | crates/orchestrator/src/utils/text_wrap.rs:23-43 | each piece fits its width and is non-empty, and a non-empty text gives at least one piece |
| TextWrap.PiecesKeepText | crates/orchestrator/src/utils/text_wrap.rs:35-42 | only whitespace is dropped between pieces: the visible characters come back in order |
| TextWrap.Decorate | crates/orchestrator/src/utils/text_wrap.rs:33-40 | one output line per piece |
| TextWrap.ShortLineUnchanged | crates/orchestrator/src/utils/text_wrap.rs:11-13 | a line of at most 100 bytes is returned alone and unchanged |
| TextWrap.DecoratedFit | crates/orchestrator/src/utils/text_wrap.rs:23-25 | pieces that fit the first-line and continuation widths make lines of at most 100 bytes |
| TextWrap.DecoratedStarts | crates/orchestrator/src/utils/text_wrap.rs:33-39 | the first line starts with the prefix and every other line with the two-space indent |
| TextWrap.WrapLineAgrees | crates/orchestrator/src/utils/text_wrap.rs:10-50 | wherever the source's `wrap_line` does not panic it returns the boundary-safe lines |
| TextWrap.FixedContentShape | crates/orchestrator/src/utils/text_wrap.rs:19-49 | a non-empty content gives lines of at most 100 bytes, prefix first, indent after, with every visible character kept |
| TextWrap.WrapLineFixedShape | crates/orchestrator/src/utils/text_wrap.rs:10-50 | the output is never empty, every line takes at most 100 bytes, and a long line keeps its prefix first, indents the rest and loses no visible character |
| TextWrap.WrapLine | crates/orchestrator/src/utils/text_wrap.rs:10-50 | the source's loop returns exactly the specified lines, None where it panics |
| TextWrap.WrapLoop | crates/orchestrator/src/utils/text_wrap.rs:19-49 | the cutting loop returns the specified lines for the content, the whole line when nothing was cut |
| TextWrap.WrapPanicsMidCharacter | crates/orchestrator/src/utils/text_wrap.rs:86 | a line of 99 ASCII bytes then a two-byte character makes the first cut slice off a character boundary |
| TuiWrap.BreakPoint | crates/orchestrator-tui/src/utils.rs:79-115 | the cut is within the text, all of it when it fits, at most `max_width` characters, and at least one character of a non-empty text |
| TuiWrap.BreakPointChoice | crates/orchestrator-tui/src/utils.rs:106-114 | on a long text the cut is past half the width, at the width or just after a space with no space between it and the width; a space past half the width is always used |
| TuiWrap.FindBreakPoint | crates/orchestrator-tui/src/utils.rs:79-115 | the character-indices loop returns the specified cut |
| TuiWrap.PiecesFit | crates/orchestrator-tui/src/utils.rs:23-43 | each piece fits its width in characters and is non-empty; a non-empty text gives a piece |
| TuiWrap.PiecesKeepText | crates/orchestrator-tui/src/utils.rs:35-42 | only whitespace is dropped between pieces |
| TuiWrap.PrefixesShort | crates/orchestrator-tui/src/utils.rs:54-61 | every listed prefix has at most eight characters |
| TuiWrap.ExtractedPrefixShort | crates/orchestrator-tui/src/utils.rs:62-71 | an extracted prefix has at most nine characters |
| TuiWrap.WrapContentShape | crates/orchestrator-tui/src/utils.rs:19-49 | a non-empty content gives lines of at most 100 characters, prefix first, indent after, with every visible character kept |
| TuiWrap.DecoratedFit | crates/orchestrator-tui/src/utils.rs:23-25 | pieces that fit their widths make lines of at most 100 characters |
| TuiWrap.WrapLineShape | crates/orchestrator-tui/src/utils.rs:10-50 | the output is never empty, every line has at most 100 characters, and a long line keeps its prefix first, indents the rest and loses no visible character |
| TuiWrap.WrapLine | crates/orchestrator-tui/src/utils.rs:10-50 | the source's loop returns exactly the specified lines |
| TuiWrap.WrapLoop | crates/orchestrator-tui/src/utils.rs:19-49 | the cutting loop returns the specified lines for the content |
| OrchestratorTypes.ScrollUp | crates/orchestrator/src/types.rs:144-147 | the offset drops by the amount, stopping at 0, and the pane stops following |
| OrchestratorTypes.ScrollDown | crates/orchestrator/src/types.rs:149-155 | the offset grows by the amount, capped at `max`; following resumes exactly when the bottom is reached, or stays on |
| OrchestratorTypes.ScrollToBottom | crates/orchestrator/src/types.rs:157-160 | the offset is `max` and the pane follows |
| OrchestratorTypes.DownThenUp | crates/orchestrator/src/types.rs:144-155 | down then up by the same amount returns to the offset when the bottom was not reached |
| OrchestratorTypes.ScrollMonotone | crates/orchestrator/src/types.rs:144-155 | scrolling down never moves up and scrolling up never moves down |
| OrchestratorTypes.ScrollStaysInRange | crates/orchestrator/src/types.rs:144-155 | an offset within `max` stays within it |
| OrchestratorTypes.ScrollState.constructor | crates/orchestrator/src/types.rs:137-142 | offset 0, following |
| OrchestratorTypes.ScrollState.ScrollUpBy | crates/orchestrator/src/types.rs:144-147 | the new state is that of `ScrollUp` |
| OrchestratorTypes.ScrollState.ScrollDownBy | crates/orchestrator/src/types.rs:149-155 | the new state is that of `ScrollDown` |
| OrchestratorTypes.ScrollState.ScrollToBottomAt | crates/orchestrator/src/types.rs:157-160 | the new state is that of `ScrollToBottom` |
| OrchestratorTypes.ScrollState.PageUp | crates/orchestrator/src/types.rs:162-164 | a page up is a scroll up by the page size |
| OrchestratorTypes.ScrollState.PageDown | crates/orchestrator/src/types.rs:166-168 | a page down is a scroll down by the page size |
| OrchestratorTypes.RecordingState.constructor | crates/orchestrator/src/types.rs:39-46 | not recording, no start time |
| OrchestratorTypes.RecordingState.Start | crates/orchestrator/src/types.rs:48-51 | recording, started now |
| OrchestratorTypes.RecordingState.Stop | crates/orchestrator/src/types.rs:53-56 | not recording, no start time |
| OrchestratorTypes.RecordingState.ElapsedSeconds | crates/orchestrator/src/types.rs:58-62 | 0 when not started, else the seconds since the start |
| OrchestratorTypes.PlanState.constructor | crates/orchestrator/src/types.rs:90-95 | no plan JSON and no command |
| OrchestratorTypes.PlanState.Clear | crates/orchestrator/src/types.rs:97-100 | no plan JSON and no command |
| OrchestratorTypes.PlanState.IsPending | crates/orchestrator/src/types.rs:102-104 | a plan is pending exactly when its JSON is held |
| TuiStateModel.PaneUp | crates/orchestrator-tui/src/state.rs:30-32 | saturating move up; the maximum is unchanged |
| TuiStateModel.PaneDown | crates/orchestrator-tui/src/state.rs:34-36 | move down capped at the maximum |
| TuiStateModel.PaneToBottom | crates/orchestrator-tui/src/state.rs:38-40 | the position is the maximum |
| TuiStateModel.UpdateMax | crates/orchestrator-tui/src/state.rs:42-53 | the maximum is the lines that overflow the viewport, 0 when they fit, and the position is pulled back within it |
| TuiStateModel.PaneOpsKeepRange | crates/orchestrator-tui/src/state.rs:30-40 | every scroll keeps the position within the maximum |
| TuiStateModel.UpdateMaxIdempotent | crates/orchestrator-tui/src/state.rs:42-53 | updating twice with the same sizes is updating once |
| TuiStateModel.ScrollState.constructor | crates/orchestrator-tui/src/state.rs:18-23 | position and maximum 0 |
| TuiStateModel.ScrollState.Reset | crates/orchestrator-tui/src/state.rs:25-28 | position and maximum 0 |
| TuiStateModel.ScrollState.ScrollUp | crates/orchestrator-tui/src/state.rs:30-32 | the new pane is that of `PaneUp` |
| TuiStateModel.ScrollState.ScrollDown | crates/orchestrator-tui/src/state.rs:34-36 | the new pane is that of `PaneDown` |
| TuiStateModel.ScrollState.ScrollToBottom | crates/orchestrator-tui/src/state.rs:38-40 | the new pane is that of `PaneToBottom` |
| TuiStateModel.ScrollState.UpdateMaxFor | crates/orchestrator-tui/src/state.rs:42-53 | the new pane is that of `UpdateMax` |
| TuiStateModel.Toggle | crates/orchestrator-tui/src/state.rs:137-142 | the next tab is always the other one |
| TuiStateModel.ToggleTwice | crates/orchestrator-tui/src/state.rs:137-146 | two toggles come back, so the previous tab undoes the next |
| TuiStateModel.PopChar | crates/orchestrator-tui/src/state.rs:163-167 | drops the last character, if any |
| TuiStateModel.PopUndoesPush | crates/orchestrator-tui/src/state.rs:157-167 | a backspace undoes the character just typed |
| TuiStateModel.TuiState.constructor | crates/orchestrator-tui/src/state.rs:79-91 | a valid state: empty buffers, both panes at 0, the Output tab, no help and no error |
| TuiStateModel.TuiState.AppendOutput | crates/orchestrator-tui/src/state.rs:93-97 | keeps the state valid; the text is appended and the output pane jumps to its bottom; every other field unchanged |
| TuiStateModel.TuiState.AppendLog | crates/orchestrator-tui/src/state.rs:99-105 | keeps the state valid; the log buffer keeps the newest 1000 lines in order; every other field unchanged |
| TuiStateModel.TuiState.ClearOutput | crates/orchestrator-tui/src/state.rs:107-110 | keeps the state valid; output empty and its pane reset; every other field unchanged |
| TuiStateModel.TuiState.ClearLogs | crates/orchestrator-tui/src/state.rs:112-115 | keeps the state valid; logs empty and their pane reset; every other field unchanged |
| TuiStateModel.TuiState.ShowError | crates/orchestrator-tui/src/state.rs:117-123 | keeps the state valid; the error shown is the one given; every other field unchanged |
| TuiStateModel.TuiState.DismissError | crates/orchestrator-tui/src/state.rs:125-127 | keeps the state valid; no error is shown; every other field unchanged |
| TuiStateModel.TuiState.ToggleHelp | crates/orchestrator-tui/src/state.rs:129-131 | keeps the state valid; help visibility flips; every other field unchanged |
| TuiStateModel.TuiState.SwitchTab | crates/orchestrator-tui/src/state.rs:133-135 | keeps the state valid; the given tab is selected; every other field unchanged |
| TuiStateModel.TuiState.NextTab | crates/orchestrator-tui/src/state.rs:137-142 | keeps the state valid; the other tab is selected; every other field unchanged |
| TuiStateModel.TuiState.PrevTab | crates/orchestrator-tui/src/state.rs:144-146 | keeps the state valid; the same toggle as the next tab; every other field unchanged |
| TuiStateModel.TuiState.HandleInputChar | crates/orchestrator-tui/src/state.rs:157-161 | keeps the state valid; the character is typed only with no error and no help shown, and nothing else changes |
| TuiStateModel.CanEditInput | crates/orchestrator-tui/src/state.rs:153-155 | input may be edited exactly with no error shown and help hidden |
| TuiStateModel.TuiState.HandleBackspace | crates/orchestrator-tui/src/state.rs:163-167 | keeps the state valid; the last character is removed only with no error and no help shown, and nothing else changes |
| TuiStateModel.TuiState.ClearInput | crates/orchestrator-tui/src/state.rs:169-171 | keeps the state valid; the input is empty; every other field unchanged |
| TuiStateModel.TuiState.TakeInput | crates/orchestrator-tui/src/state.rs:173-177 | keeps the state valid; the typed line is returned and the input left empty; every other field unchanged |
| ConversationMemoryModel.ContextEmptyIff | crates/router/src/memory.rs:83-103 | the context is empty exactly when memory is, and otherwise starts with the history header |
| ConversationMemoryModel.LastAssistantIsNewest | crates/router/src/memory.rs:117-122 | None exactly when no message is the assistant's; otherwise the content of the newest assistant message |
| ConversationMemoryModel.ConversationMemory.GetContextForLlm | crates/router/src/memory.rs:83-103 | empty exactly for an empty memory, otherwise starting with the history header |
| ConversationMemoryModel.ConversationMemory.GetLastAssistantMessage | crates/router/src/memory.rs:117-122 | None exactly when no message is the assistant's; otherwise the content of the newest assistant message |
| ConversationMemoryModel.ConversationMemory.constructor | crates/router/src/memory.rs:52-54 | empty, with capacity ten |
| ConversationMemoryModel.ConversationMemory.WithMaxSize | crates/router/src/memory.rs:56-61 | empty, with the given capacity |
| ConversationMemoryModel.ConversationMemory.AddMessage | crates/router/src/memory.rs:63-69 | memory holds the newest messages up to its capacity, in arrival order |
| ConversationMemoryModel.ConversationMemory.AddUserMessage | crates/router/src/memory.rs:71-73 | adds a user message the same way |
| ConversationMemoryModel.ConversationMemory.AddAssistantMessage | crates/router/src/memory.rs:75-77 | adds an assistant message the same way |
| ConversationMemoryModel.ConversationMemory.Clear | crates/router/src/memory.rs:105-107 | memory is empty |
| ConversationMemoryModel.ConversationMemory.GetHistory | crates/router/src/memory.rs:79-81 | the messages held, oldest first, at most the capacity in a valid memory |
| ConversationMemoryModel.ConversationMemory.Len | crates/router/src/memory.rs:109-111 | the number of messages held, at most the capacity in a valid memory |
| ConversationMemoryModel.ConversationMemory.IsEmpty | crates/router/src/memory.rs:113-115 | empty exactly when no message is held, exactly when the LLM context is empty, and then there is no assistant message |
| BoundedQueue.Last | crates/router/src/memory.rs:63-69 | the newest `n` entries, oldest first: a suffix of the input of length `min(n, len(s))` |
| BoundedQueue.PushBounded | crates/router/src/memory.rs:63-69 | the pushed entry is last and a deque within its bound stays within it |
| BoundedQueue.PushKeepsNewest | crates/router/src/memory.rs:63-69 | one push keeps exactly the newest entries up to the bound |
| BoundedQueue.LastAppend | crates/router/src/memory.rs:63-69 | keeping the newest `n` twice is keeping them once |
| BoundedQueue.PushAllKeepsNewest | crates/router/src/memory.rs:63-69 | after any number of pushes the deque holds the newest entries of everything pushed, in order |
| SessionEvents.Since | crates/orchestrator-core/src/session/history.rs:66-72 | the events kept are exactly those stamped strictly after `since`, no more of them than events; when every event is after `since`, all of them in their order |
| SessionEvents.SinceAppend | crates/orchestrator-core/src/session/history.rs:66-72 | the filter keeps order: filtering two stretches of the log one after the other is filtering each and joining the results |
| SessionEvents.LastUserInputIsNewest | crates/orchestrator-core/src/session/history.rs:86-94 | None exactly when there is no user input; otherwise the text of the newest user input |
| SessionEvents.CountsWithinTotal | crates/orchestrator-core/src/session/history.rs:112-140 | the four per-kind counts add up to at most the event total, and the conversation holds exactly the user inputs and the responses |
| SessionEvents.ConversationSnoc | crates/orchestrator-core/src/session/history.rs:96-110 | one more event adds its own entry, if any, at the end of the conversation |
| SessionEvents.SessionHistory.constructor | crates/orchestrator-core/src/session/history.rs:30-35 | an empty log with the given capacity |
| SessionEvents.SessionHistory.AddEvent | crates/orchestrator-core/src/session/history.rs:37-48 | the log keeps the newest events up to its capacity, the new one last |
| SessionEvents.SessionHistory.GetRecentEvents | crates/orchestrator-core/src/session/history.rs:54-64 | the last `count` events (all when fewer) in their original order |
| SessionEvents.SessionHistory.GetEvents | crates/orchestrator-core/src/session/history.rs:50-52 | all events, oldest first (the most recent `len` of them), within capacity for a valid log |
| SessionEvents.SessionHistory.GetEventsSince | crates/orchestrator-core/src/session/history.rs:66-72 | exactly the events stamped strictly after `since`, no more of them than the log holds |
| SessionEvents.SessionHistory.GetLastUserInput | crates/orchestrator-core/src/session/history.rs:86-94 | None exactly when the log holds no user input; otherwise the text of the newest one |
| SessionEvents.SessionHistory.Clear | crates/orchestrator-core/src/session/history.rs:74-76 | the log is empty |
| SessionEvents.SessionHistory.Len | crates/orchestrator-core/src/session/history.rs:78-80 | the number of events held, at most the capacity in a valid log |
| SessionEvents.SessionHistory.IsEmpty | crates/orchestrator-core/src/session/history.rs:82-84 | empty exactly when no event is held, and then there is no user input |
| SessionEvents.SessionHistory.GetConversationHistory | crates/orchestrator-core/src/session/history.rs:96-110 | the loop yields the specified conversation: user inputs marked true, responses false, in order |
| SessionEvents.AppendTurn | crates/orchestrator-core/src/session/history.rs:99-107 | a user input adds (text, true), a system response (text, false), any other event nothing |
| SessionEvents.SessionHistory.ToSummary | crates/orchestrator-core/src/session/history.rs:112-140 | the counting loop yields the specified summary: first and last timestamps, the total and the four counts |
| SessionContextModel.SetRouterResponse | crates/orchestrator-core/src/session/context.rs:113-115 | records the response and changes no other field |
| SessionContextModel.SetTarget | crates/orchestrator-core/src/session/context.rs:117-120 | sets the target and the confirmation flag; the retry counter, limit and response are kept |
| SessionContextModel.ClearTarget | crates/orchestrator-core/src/session/context.rs:122-125 | no target and no confirmation; the retry counter, limit and response are kept |
| SessionContextModel.ClearUndoesSet | crates/orchestrator-core/src/session/context.rs:117-125 | clearing after setting a target is the same as clearing |
| SessionContextModel.IncrementRetry | crates/orchestrator-core/src/session/context.rs:88-95 | counts one more attempt and answers true exactly when attempts remain; otherwise changes nothing |
| SessionContextModel.ShouldRetry | crates/orchestrator-core/src/session/context.rs:97-99 | retrying is allowed exactly while attempts remain below the limit |
| SessionContextModel.RetriesSaturate | crates/orchestrator-core/src/session/context.rs:88-99 | after `n` attempts the counter is the smaller of the limit and the count plus `n` |
| SessionContextModel.FreshAllowsThree | crates/orchestrator-core/src/session/context.rs:97-111 | a fresh routing context counts at most three retries, and retrying is allowed exactly before the third |
| SessionContextModel.SessionContext.constructor | crates/orchestrator-core/src/session/context.rs:33-44 | the given id, no user, project, executor or prompt, empty metadata, no confirmation pending, a fresh routing context |
| SessionContextModel.SessionContext.WithUserId | crates/orchestrator-core/src/session/context.rs:46-49 | sets the user; every other field unchanged |
| SessionContextModel.SessionContext.WithProjectPath | crates/orchestrator-core/src/session/context.rs:51-54 | sets the project path; every other field unchanged |
| SessionContextModel.SessionContext.SetActivePrompt | crates/orchestrator-core/src/session/context.rs:56-58 | sets the prompt; every other field unchanged |
| SessionContextModel.SessionContext.ClearActivePrompt | crates/orchestrator-core/src/session/context.rs:60-62 | clears the prompt; every other field unchanged |
| SessionContextModel.SessionContext.SetExecutorId | crates/orchestrator-core/src/session/context.rs:64-66 | sets the executor id; every other field unchanged |
| SessionContextModel.SessionContext.ClearExecutorId | crates/orchestrator-core/src/session/context.rs:68-70 | clears the executor id; every other field unchanged |
| SessionContextModel.SessionContext.SetMetadata | crates/orchestrator-core/src/session/context.rs:72-74 | inserts or overwrites one key; every other field unchanged |
| SessionContextModel.SessionContext.GetMetadata | crates/orchestrator-core/src/session/context.rs:76-78 | a value exactly when the key is present, and it is the stored one |
| SessionContextModel.SessionContext.RemoveMetadata | crates/orchestrator-core/src/session/context.rs:80-82 | removes the key and hands back what it held, if anything; every other field unchanged |
| SessionContextModel.SessionContext.ResetRoutingContext | crates/orchestrator-core/src/session/context.rs:84-86 | a fresh routing context; every other field unchanged |
| SessionContextModel.SessionContext.IncrementRetryCount | crates/orchestrator-core/src/session/context.rs:88-95 | the routing context and the answer are those of `IncrementRetry`; every other field unchanged |
| SessionContextModel.SessionContext.ShouldRetryNow | crates/orchestrator-core/src/session/context.rs:97-99 | true exactly when the retry count is below the limit, that is when incrementing would count the attempt |
| SearchDistill.AddQuery | search-distill/src/main.rs:434-444 | the newest entry is the query, and a history within its bound stays within it |
| SearchDistill.AddKeepsNoRepeats | search-distill/src/main.rs:434-444 | no two neighbouring entries are ever equal, and re-adding the newest query changes nothing |
| SearchDistill.QueryHistory.constructor | search-distill/src/main.rs:427-432 | an empty history with the given capacity |
| SearchDistill.QueryHistory.Add | search-distill/src/main.rs:434-444 | the new entries are those of `AddQuery` |
| SearchDistill.QueryHistory.GetLast | search-distill/src/main.rs:446-448 | None exactly when empty, else the newest query |
| SearchDistill.QueryHistory.List | search-distill/src/main.rs:450-452 | a valid history lists at most its capacity, with no two neighbouring queries equal, and ends with the newest query |
| SearchDistill.TrimIsInfix | search-distill/src/main.rs:365-373 | trimming keeps a contiguous run of the text |
| SearchDistill.StripMarkers | search-distill/src/main.rs:368-371 | removing "##" and "**" before '*' and '#' is removing '*' and '#' |
| SearchDistill.TrimKeepsOut | search-distill/src/main.rs:372 | trimming adds no character |
| SearchDistill.VoiceSummaryStripsMarkup | search-distill/src/main.rs:365-373 | the spoken text has no '#' or '*', is trimmed, and is the summary with those characters removed |
| SearchDistill.FindPage | search-distill/src/main.rs:254-256 | a page found is one of the pages, fetched from that url; none found means no page has that url |
| SearchDistill.SnippetSource | search-distill/src/main.rs:254-260 | the fetched content of the result's page when there is some; else its description; else "No content available" |
| SearchDistill.TakeChars | search-distill/src/main.rs:263 | the first `n` characters of the text (all when fewer) |
| SearchDistill.CleanLines | search-distill/src/main.rs:266-271 | at most `n` lines, each non-empty and trimmed |
| SearchDistill.CleanLinesNoLonger | search-distill/src/main.rs:266-272 | joining the cleaned lines is no longer than joining the lines |
| SearchDistill.LinesJoinNoLonger | search-distill/src/main.rs:266-272 | splitting into lines and joining with spaces never lengthens the text |
| SearchDistill.CleanSnippetShape | search-distill/src/main.rs:263-272 | a snippet is at most 20 non-empty trimmed lines of the first 1500 characters, joined by spaces, and never longer than 1500 characters |
| IntentRouter.ActionName | src/router.rs:296-318 | every action is named by one of the strings the router model may answer with |
| IntentRouter.ParseAction | src/router.rs:295-321 | succeeds exactly on a known action name, and for "read_phase_N" only with a phase number; the action read back carries that name, that number, and the input as its change |
| IntentRouter.ParseActionRoundTrip | src/router.rs:295-321 | every action is read back from its own name, change and phase |
| IntentRouter.DefaultQuestion | src/router.rs:272-274 | the default question starts "Should I " and ends with '?' |
| IntentRouter.IntentOf | src/router.rs:258-288 | a confirmation exactly for "confirmation", confirmed only on an explicit true; a directive or proposal exactly when the answer's type says so and its action parses; a proposal asks the given question or the default one; any other type is "Got it" |
| IntentRouter.MissingActionIsInfo | src/router.rs:259-280 | a directive without an action is "Got it" and a proposal without one is "What would you like?" |
| IntentRouter.ExtractAction | src/router.rs:360-389 | no action exactly when the combined text asks neither to write or read nor to edit; an edit carries the request's own text and, for the phasing, the phase number the source's own reading (PhaseNumberAsWritten) takes from the combined text |
| IntentRouter.ParseAssistantResponse | src/router.rs:325-357 | the reply itself as info exactly when no action is found; otherwise a proposal, asking the reply, exactly when the reply reads as a question, else a directive, with the action found |
| IntentRouter.WriteRequestAnsweredByQuestion | src/router.rs:334-366 | a request to write the description answered by a question is a proposal to write it |
| IntentRouter.ReadPhasingRequest | src/router.rs:334-375 | a request to read the phasing, not answered by a question and with no talk of writing or the description, is a directive to read it |
| IntentRouter.LeadingDigits | src/router.rs:414-416 | the run of ASCII digits at the start of the text, ended by a non-digit or the end |
| IntentRouter.PhaseNumberAsWritten | src/router.rs:399-423 | a number found fits in 32 bits; "phase 1" anywhere gives 1; a text without "phase " gives none; without one of the six fixed phrases, the digits after the first "phase " are the number when a non-digit follows them, and there is none when they run to the end of the text |
| IntentRouter.PhaseNumberAsWrittenRead | src/router.rs:399-423 | after a prefix without "phase ", "phase " then a 32-bit number that is one digit or starts with 4 to 9, then a non-digit and a tail without "phase ", reads back that number |
| IntentRouter.PhaseReadAsFirstDigit | src/router.rs:401-409 | a number of two or more digits starting with 1, 2 or 3 after "phase " is read as that first digit alone |
| IntentRouter.PhaseAtEndLost | src/router.rs:412-419 | digits after "phase " that end the text (and do not start with 1, 2 or 3) give no number |
| IntentRouter.PhaseTwelveReadAsOne | src/router.rs:401-403 | "edit phase 12 please" is read as phase 1 by the source and as phase 12 by the mended reading |
| IntentRouter.PhaseFourAtEndLost | src/router.rs:412-419 | "phase 4" gives no number in the source and 4 in the mended reading |
| IntentRouter.PhaseNumber | src/router.rs:399-423 | the mended reading: a number found fits in 32 bits; "phase one", or "phase 1" not followed by a digit, gives 1; no "phase " gives none; without a phrase, the leading digits after the first "phase " are read as a u32, also at the end of the text |
| IntentRouter.PhaseNumberRead | src/router.rs:399-423 | mended reading: after any prefix without "phase ", "phase " then any 32-bit number, then a non-digit or the end of the text, and a tail without "phase ", reads back that number ("edit phase 12 please" gives 12) |
| ExecutorSummary.Name | crates/control_center/src/executor/traits.rs:18-25 | Claude, Devin and Codex are named "Claude", "Devin" and "Codex"; a custom executor has its own name |
| ExecutorSummary.TruncateTextAsWritten | crates/control_center/src/executor/traits.rs:150-156 | where the slice does not panic the result is a prefix of the text within `max_len` bytes |
| ExecutorSummary.TruncateTextPanics | crates/control_center/src/executor/traits.rs:150-156 | 149 ASCII bytes then a two-byte character make a 150-byte cut panic |
| StrUtil.TruncateBytesAgrees | crates/control_center/src/executor/traits.rs:150-156 | the cut at the last character boundary within `max_len` bytes is the source's cut wherever that one does not panic |
| ExecutorSummary.GenericLines | crates/control_center/src/executor/traits.rs:137-147 | no more lines than logs, each at most 150 bytes |
| ExecutorSummary.GenericLinesFromKept | crates/control_center/src/executor/traits.rs:137-147 | every line is the content of a user, assistant or error log, cut to 150 bytes |
| ExecutorSummary.GenericLinesAppend | crates/control_center/src/executor/traits.rs:137-147 | filtering two batches is filtering them one after the other |
| ExecutorSummary.GenericLinesKeepShort | crates/control_center/src/executor/traits.rs:137-147 | short kept lines pass through unchanged and in order |
| ExecutorSummary.DescribeWrite | crates/control_center/src/executor/traits.rs:161-167 | a write names the file by its last path segment |
| ExecutorSummary.DescribeRead | crates/control_center/src/executor/traits.rs:168-174 | a read names the file by its last path segment |
| ExecutorSummary.DescribeToolUse | crates/control_center/src/executor/traits.rs:159-198 | an unknown tool is described by its bare name; a shell call as "Run: " and at most 55 bytes; a search as the tool name, a quote and at most 33 bytes more |
| ExecutorSummary.FirstErrorLine | crates/control_center/src/executor/traits.rs:213-218 | a line found is the first line that mentions "error" or "Error", as `find` returns; none found means no line does |
| ExecutorSummary.SummarizeToolResult | crates/control_center/src/executor/traits.rs:201-231 | "No results" for an empty search, and empty only for empty content or an empty first line |
| ExecutorSummary.LinesOfJoin | crates/control_center/src/executor/traits.rs:202 | joining plain lines with newlines and splitting them again gives the lines back |
| ExecutorSummary.SummarizeListing | crates/control_center/src/executor/traits.rs:220-223 | more than five path lines, with no earlier rule applying, are counted as files |
| ExecutorSummary.FileListingCounted | crates/control_center/src/executor/traits.rs:220-223 | a listing of more than five absolute paths is summarised as "Found n files" |
| ExecutorSummary.UserItemLine | crates/control_center/src/executor/traits.rs:59-75 | a user content item gives at most one line |
| ExecutorSummary.AssistantItemLine | crates/control_center/src/executor/traits.rs:86-100 | an assistant content item gives at most one line |
| ExecutorSummary.UserItemLinesMarked | crates/control_center/src/executor/traits.rs:54-80 | every line from a user message is marked "User: " or "• " |
| ExecutorSummary.AssistantItemLinesMarked | crates/control_center/src/executor/traits.rs:81-105 | every line from an assistant message is marked "Claude: " or "→ " |
| ExecutorSummary.ClaudeLinesMarked | crates/control_center/src/executor/traits.rs:45-122 | every line of the Claude filter carries one of the six markers |
| ExecutorSummary.ClaudeLinesAppend | crates/control_center/src/executor/traits.rs:45-122 | filtering two batches of logs is filtering them one after the other, in order |
| ExecutorSummary.LogLinesMarked | crates/control_center/src/executor/traits.rs:49-118 | every line one log gives carries one of the six markers |
| ExecutorSummary.LogLines | crates/control_center/src/executor/traits.rs:48-118 | a line that is not JSON gives one "Error: " line for an error log and nothing otherwise; a JSON "error" gives at most one "ERROR: " line; any type other than user, assistant and error gives nothing |
| ExecutorSummary.PlainTextOnlyErrors | crates/control_center/src/executor/traits.rs:115-118 | a line that is not JSON contributes only when it is an error log |
| ExecutorSummary.FilterClaudeLogs | crates/control_center/src/executor/traits.rs:45-122 | the loop yields the specified summary lines of each log in turn |
| ExecutorSummary.CollectUserItems | crates/control_center/src/executor/traits.rs:59-76 | the loop over a user message's items yields the specified lines |
| ExecutorSummary.CollectAssistantItems | crates/control_center/src/executor/traits.rs:86-101 | the loop over an assistant message's items yields the specified lines |
| ExecutorSummary.SummarizeLog | crates/control_center/src/executor/traits.rs:49-118 | the lines one log gives are the specified ones |
| ExecutorSummary.FilterLogsForSummary | crates/control_center/src/executor/traits.rs:29-36 | Claude logs go through the Claude filter, every other executor through the generic one |
| ControlCenterLogs.LogTypeOf | crates/control_center/src/logs.rs:87-97 | Unknown exactly for a string outside the known names |
| ControlCenterLogs.TypeNames | crates/control_center/src/logs.rs:88-94 | every name listed for a type is a known name |
| ControlCenterLogs.LogTypeNames | crates/control_center/src/logs.rs:87-97 | each known type is read from exactly its own names |
| ControlCenterLogs.ShortenAsWritten | crates/control_center/src/logs.rs:208-212 | where the slice does not panic, a short text is kept whole |
| ControlCenterLogs.ShortenSplitsCharacter | crates/control_center/src/logs.rs:208-209 | a byte cut inside a multi-byte character panics |
| ControlCenterLogs.Shorten | crates/control_center/src/logs.rs:208-212 | a text within the limit is kept, a longer one is its boundary-safe cut followed by "..." |
| ControlCenterLogs.ShortenAgrees | crates/control_center/src/logs.rs:208-212 | where the source does not panic both agree, and the result takes at most `n + 3` bytes |
| ControlCenterLogs.OutputText | crates/control_center/src/logs.rs:223-231 | no text exactly for empty output |
| ControlCenterLogs.ObjectText | crates/control_center/src/logs.rs:182-237 | a string "text" field wins over every other field |
| ControlCenterLogs.ContentText | crates/control_center/src/logs.rs:175-259 | a string content is its own text; an object its field text when it has one; a non-empty array its first string; content with no text of its own is its compact JSON when that fits 100 bytes, and at most 103 bytes in any case |
| ControlCenterLogs.ContentTextAsWritten | crates/control_center/src/logs.rs:175-259 | the source's content text fails exactly when the compact JSON is used and its cut at byte 100 panics, and otherwise agrees with ContentText |
| ControlCenterLogs.CompactCutPanics | crates/control_center/src/logs.rs:252-258 | compact JSON with 99 ASCII bytes and then a multi-byte character makes the cut panic |
| ControlCenterLogs.ToolText | crates/control_center/src/logs.rs:194-218 | without an object input the text is the tool's name; a shell call's text starts with "$ " and takes at most 55 bytes |
| ControlCenterLogs.ExtractContent | crates/control_center/src/logs.rs:168-269 | the message when present; else the content's text; else "Tool: " and the tool; else the entry type in brackets |
| ControlCenterLogs.Extension | crates/control_center/src/logs.rs:110 | an extension is dot-free text that ends the name after a dot that does not lead it |
| ControlCenterLogs.PathPush | crates/control_center/src/logs.rs:296-297 | an absolute path replaces the base; a relative one is joined after it |
| ControlCenterLogs.ExpandTilde | crates/control_center/src/logs.rs:292-303 | only "~/..." with a home directory is rewritten, to the rest under home |
| ControlCenterLogs.DefaultDirUnexpanded | crates/control_center/src/logs.rs:63 | the default directory "artifacts/executor_logs", set on line 11, is not rewritten by the tilde expansion |
| ControlCenterLogs.LatestNoneIff | crates/control_center/src/logs.rs:104-119 | no newest file exactly when no JSONL file has a readable time |
| ControlCenterLogs.LatestIsNewest | crates/control_center/src/logs.rs:104-119 | the chosen file is a JSONL file newer than every earlier one, and no JSONL file is newer |
| ControlCenterLogs.ParseLine | crates/control_center/src/logs.rs:139-166 | at most one line is sent, and only for a non-blank line, keeping the raw text |
| ControlCenterLogs.ParsedLines | crates/control_center/src/logs.rs:138-145 | no more lines are sent than the file has |
| ControlCenterLogs.LogMonitor.constructor | crates/control_center/src/logs.rs:62-72 | no current file, position 0 |
| ControlCenterLogs.LogMonitor.FindLatestSession | crates/control_center/src/logs.rs:99-130 | a newest file that differs from the current one becomes current and is read from the start; otherwise nothing changes |
| ControlCenterLogs.LogMonitor.CheckCurrentFile | crates/control_center/src/logs.rs:132-151 | the lines from the last position on that parse are sent and the position becomes the line count; without a file or a read nothing changes |
| ControlCenterLogs.ReadFrom | crates/control_center/src/logs.rs:138-145 | the loop sends exactly the specified lines |
| ControlCenterLogs.ParsedLinesFromFile | crates/control_center/src/logs.rs:138-145 | every line sent is a non-blank line of the file |
| ControlCenterLogs.ParsedLinesAppend | crates/control_center/src/logs.rs:138-147 | reading in two steps sends what reading the lines at once would |
| StrUtil.TruncateBytes | crates/control_center/src/executor/traits.rs:150-156 | the result is a whole-character prefix of at most `n` UTF-8 bytes, is the whole text when that fits, and is the longest such prefix |
| SessionRecords.WithoutId | crates/orchestrator/src/session_history.rs:49 | no entry of the id is left, every entry of another id is kept, and no entry is invented |
| SessionRecords.WithoutIdUnique | crates/orchestrator/src/session_history.rs:49 | dropping an id keeps unique ids unique |
| SessionRecords.Added | crates/orchestrator/src/session_history.rs:47-52 | the new entry is last, no earlier entry shares its id, every entry of another id is kept, and no entry is invented |
| SessionRecords.AddedUnique | crates/orchestrator/src/session_history.rs:47-52 | adding keeps session ids unique, whatever the new entry's id |
| SessionRecords.FindIndex | crates/orchestrator/src/session_history.rs:71-73 | the index found holds the id and no earlier entry does; no index means no entry has it |
| SessionRecords.LookupAfterAdd | crates/orchestrator/src/session_history.rs:47-52 | after adding, looking the id up finds exactly the added entry |
| SessionRecords.LookupOtherAfterAdd | crates/orchestrator/src/session_history.rs:47-52 | adding leaves the lookup of every other id unchanged |
| SessionRecords.Updated | crates/orchestrator/src/session_history.rs:54-63 | only the first entry with the id changes; without one nothing changes; the length and every other entry are kept |
| SessionRecords.UpdatedLookup | crates/orchestrator/src/session_history.rs:54-63 | an update keeps ids unique and the lookup then finds the updated entry |
| SessionRecords.UpdatedFields | crates/orchestrator/src/session_history.rs:56-60 | the status and completion time are set, and the summary is replaced only when one is given |
| SessionRecords.LastCompletedIndex | crates/orchestrator/src/session_history.rs:65-69 | the result, if any, is a completed entry |
| SessionRecords.LastCompletedIsLatest | crates/orchestrator/src/session_history.rs:65-69 | the result is the latest completed entry, the last among equal completion times, and is None only when no entry is completed |
| SessionRecords.LatestCompletedUnique | crates/orchestrator/src/session_history.rs:65-69 | at most one index is the latest completed entry, so the result is well defined |
| SessionRecords.InsertNewestFirst | crates/orchestrator/src/session_history.rs:77 | the result holds the list's entries plus the new one, as a permutation |
| SessionRecords.InsertKeepsOrder | crates/orchestrator/src/session_history.rs:77 | inserting keeps the relative order of the entries already placed |
| SessionRecords.SortNewestFirst | crates/orchestrator/src/session_history.rs:76-77 | the sorted list is a permutation of the entries |
| SessionRecords.SortIsNewestFirst | crates/orchestrator/src/session_history.rs:77 | start times never increase along the sorted list |
| SessionRecords.StartedAt | crates/orchestrator/src/session_history.rs:77 | every entry kept started at the given time |
| SessionRecords.StartedAtInsert | crates/orchestrator/src/session_history.rs:77 | an inserted entry goes ahead of every entry with the same start time |
| SessionRecords.SortIsStable | crates/orchestrator/src/session_history.rs:77 | entries that share a start time keep their original order |
| SessionRecords.Recent | crates/orchestrator/src/session_history.rs:75-79 | at most `limit` entries, the head of the sorted list |
| SessionRecords.RecentAreNewest | crates/orchestrator/src/session_history.rs:75-79 | the result is newest first, drawn from the history, and no entry left out started later than one kept |
| SessionRecords.SessionHistory.constructor | crates/orchestrator/src/session_history.rs:37-45 | the history holds the stored entries, or none when there are none |
| SessionRecords.SessionHistory.AddSession | crates/orchestrator/src/session_history.rs:47-52 | the entries become the added list and ids stay unique |
| SessionRecords.SessionHistory.UpdateSessionStatus | crates/orchestrator/src/session_history.rs:54-63 | the entries become the updated list and ids stay unique |
| TtsSay.SayNote | src/tts_backend.rs:28-33 | the note starts with the "macos-say" prefix and a colon, followed by the token's digits |
| TtsSay.StripPrefix | src/tts_backend.rs:91-96 | a result exists exactly when the text starts with the prefix, and prefix plus result is the text |
| TtsSay.ParseSayToken | src/tts_backend.rs:91-96 | on macOS a token is read only from a note that starts with the prefix and a colon and whose rest is a number; elsewhere never |
| TtsSay.SayTokenRoundTrip | src/tts_backend.rs:31-33 | the token written into a note is the token read back from it |
| TtsSay.ForeignNoteHasNoToken | src/tts_backend.rs:91-96 | a note without the prefix, or no note, carries no token |
| TtsSay.SpokenNoteHasNoToken | src/tts_backend.rs:207 | the other local backend's note is never read as a token |
| TtsSay.CheckText | src/tts_backend.rs:148-150 | text that trims to nothing is refused with the backend's error; other text passes |
| TtsSay.SaySlot.constructor | src/tts_backend.rs:22-25 | no live process and a counter that starts at 1 |
| TtsSay.SaySlot.StopSayProcess | src/tts_backend.rs:36-49 | without a token or with the live one, the process is killed and the slot emptied; another token leaves the slot as it was |
| TtsSay.SaySlot.IsSayProcessActive | src/tts_backend.rs:52-75 | true exactly for the live token of a process still running; for the live token, an exited process or a failed wait empties the slot; otherwise the slot is kept |
| TtsSay.SaySlot.MarkSayProcess | src/tts_backend.rs:78-88 | the new token is the counter, larger than every earlier token; the old process is killed and the new one takes the slot |
| TtsSay.SaySlot.SynthesizeLocally | src/tts_backend.rs:147-179 | blank text is refused and the slot untouched; a failed spawn is an error; otherwise the process is marked and the note carries its token |
| DotEnv.ExtractValue | crates/orchestrator/src/config.rs:61-66 | the value never grows and neither begins nor ends with a single quote |
| DotEnv.IsValidEnvLine | crates/orchestrator/src/config.rs:38-41 | a line counts exactly when its trimmed text is not empty and does not start with '#'; such a line holds a non-blank character |
| DotEnv.ExtractValueQuotes | crates/orchestrator/src/config.rs:61-66 | a value in double or single quotes loses them; a value with no quote at either end is kept |
| DotEnv.ParseKeyValue | crates/orchestrator/src/config.rs:49-59 | a result exists exactly when there is an '=' and the text before it is not blank; the key is that text trimmed |
| DotEnv.SplitAtFirstEquals | crates/orchestrator/src/config.rs:50-52 | splitting `key=rest` at the first '=' gives back `key` and `rest` when `key` has no '=' |
| DotEnv.ParseQuotedValue | crates/orchestrator/src/config.rs:49-66 | `KEY="VALUE"` parses to KEY and VALUE |
| DotEnv.DefinitionOfQuotedLine | crates/orchestrator/src/config.rs:38-47 | a line `KEY="VALUE"` defines KEY as VALUE |
| DotEnv.SetIfUnset | crates/orchestrator/src/config.rs:68-74 | a variable already set keeps its value; an unset one takes the new value; nothing else changes |
| DotEnv.Defs | crates/orchestrator/src/config.rs:30-36 | one entry per line of the file |
| DotEnv.FirstOfIsEarliest | crates/orchestrator/src/config.rs:30-36 | the first definition found is the earliest line defining the key; none when no line defines it |
| DotEnv.ApplyAllFirstWins | crates/orchestrator/src/config.rs:30-47 | loading keeps every variable already set, an unset variable takes its first definition, and nothing else is added |
| DotEnv.Environment.constructor | crates/orchestrator/src/config.rs:68-74 | the environment starts with the given variables |
| DotEnv.Environment.SetEnvIfUnset | crates/orchestrator/src/config.rs:68-74 | the variables become those `SetIfUnset` gives |
| DotEnv.Environment.ParseEnvFile | crates/orchestrator/src/config.rs:30-47 | the variables become the result of applying every line's definition in order |
| DotEnv.Environment.ApplyEnvVariable | crates/orchestrator/src/config.rs:43-47 | the variables become those the trimmed line's key and value give when the key is unset, and stay as they were when the line does not parse |
| DotEnv.Environment.LoadEnvFileIfPresent | crates/orchestrator/src/config.rs:24-28 | a missing or unreadable file changes nothing; otherwise it is parsed |
| DotEnv.Environment.LoadDotenv | crates/orchestrator/src/config.rs:16-22 | the three files are loaded in order, working directory, parent, grandparent, and every variable already set keeps its value |
| DotEnv.Environment.LoadApiKey | crates/orchestrator/src/config.rs:3-12 | a key already set wins unchanged; otherwise the whole file is loaded into the environment and the result is the file's first definition of the key, or the not-found error |
| DotEnv.KeepsSet | crates/orchestrator/src/config.rs:24-36 | loading a file, or none, keeps every variable already set |
| Xtask.GetEnv | xtask/src/main.rs:119-128 | the value of the first non-blank, non-comment line whose key is the one asked for; none is the not-found error |
| Xtask.LineValueIsDefinition | xtask/src/main.rs:119-128 | for a non-empty key, a line gives the same value under this reader as under the orchestrator's loader |
| Xtask.GetEnvAgreesWithLoader | xtask/src/main.rs:119-128 | for a non-empty key, the value found is the one the orchestrator's loader would set from the same file |
| Xtask.BlankKeyMatchesBareValue | xtask/src/main.rs:123-125 | an empty key matches a line "=v" and reads `v`, for any `v` without spaces or quotes at its ends |
| Xtask.LoaderIgnoresBareValue | crates/orchestrator/src/config.rs:54-56 | the orchestrator's loader ignores every such line, its key being blank |
| Xtask.TrimWsSuffix | xtask/src/main.rs:130-137 | exactly one trailing "/ws" after a host without '/' is stripped |
| Xtask.WsToHealth | xtask/src/main.rs:130-133 | the URL ends in "/health" with no "/ws" left before it; without a ws scheme only the suffix changes |
| Xtask.WsToHttpHost | xtask/src/main.rs:135-137 | the host never ends in "/ws"; without a ws scheme only that suffix is removed |
| Xtask.PlainRelayUrl | xtask/src/main.rs:130-137 | "ws://host/ws" gives "http://host/health" and "host" |
| Xtask.SecureRelayHealth | xtask/src/main.rs:130-133 | "wss://host/ws" gives the same health URL as the plain scheme |
| Xtask.SecureRelayHost | xtask/src/main.rs:135-137 | "wss://host/ws" gives the same host as the plain scheme |
| LlmTypes.AllCommands | crates/llm-interface/src/types.rs:66-70 | every step's command in step order; none without a plan |
| LlmTypes.IsValid | crates/llm-interface/src/types.rs:56-58 | valid exactly with an accepted status and a plan; a valid plan has a first command exactly when it has commands |
| LlmTypes.FirstCommand | crates/llm-interface/src/types.rs:60-64 | a command exactly when there is a plan with a step |
| LlmTypes.FirstCommandIsHead | crates/llm-interface/src/types.rs:60-70 | the first command is the head of all commands |
| LlmTypes.ValidPlanHasCommand | crates/llm-interface/src/types.rs:56-64 | a valid plan with steps has a first command |
| PlanExtractor.AsF64 | crates/router/src/extractors/json.rs:55 | a number exactly when the value is an integer or a float |
| PlanExtractor.ParseStatus | crates/router/src/extractors/json.rs:41-51 | a missing or non-string status is an error; "ok" and only "ok" is Ok, "deny" and only "deny" is Deny |
| PlanExtractor.ParseConfidence | crates/router/src/extractors/json.rs:53-59 | present exactly when a confidence object has a numeric score and a string label, and then carries them |
| PlanExtractor.ParseStep | crates/router/src/extractors/json.rs:81-95 | a step exactly when "cmd" is a string, and its command is that string |
| PlanExtractor.StepListEmptyIff | crates/router/src/extractors/json.rs:79-96 | no step survives exactly when no element has a string "cmd" |
| PlanExtractor.FirstSurvivingStep | crates/router/src/extractors/json.rs:79-96 | the first surviving step is the first element with a string "cmd" |
| PlanExtractor.AllStepsKept | crates/router/src/extractors/json.rs:79-96 | when every element parses, every one is kept in place |
| PlanExtractor.ParseSteps | crates/router/src/extractors/json.rs:76-103 | steps only from an array, and only when at least one survives |
| PlanExtractor.ParsePlan | crates/router/src/extractors/json.rs:61-74 | a plan exactly when "plan" has steps, and a plan is never empty |
| PlanExtractor.ExtractPlan | crates/router/src/extractors/json.rs:16-33 | text that is not JSON, or a missing status, is an error; otherwise status, confidence, plan and reason come from their parsers and the text is kept |
| PlanExtractor.ExtractFirstCommand | crates/router/src/extractors/json.rs:35-38 | an error exactly when extraction fails; otherwise the extracted plan's first command |
| PlanExtractor.FirstCommandOfFirstStep | crates/router/src/extractors/json.rs:35-38 | a command exactly when a plan was read, and it is the "cmd" of the first step element with a string "cmd" |
| PlanExtractor.ValidExtractedPlanHasCommand | crates/router/src/extractors/json.rs:16-38 | a valid extracted plan always has a command to run |
| OrchestratorApp.Newest | crates/orchestrator/src/app.rs:524-530 | at most `n` elements, the last ones, and all of them when there are no more |
| OrchestratorApp.Lower | crates/orchestrator/src/app.rs:89-91 | subtraction stopping at zero |
| OrchestratorApp.NewestOfNewest | crates/orchestrator/src/app.rs:72-93 | keeping the newest of the newest is keeping the newest |
| OrchestratorApp.LowerTwice | crates/orchestrator/src/app.rs:72-93 | lowering twice is lowering by the sum |
| OrchestratorApp.PushTrimmed | crates/orchestrator/src/app.rs:76-77 | past the cap the oldest line goes and a positive offset drops by one |
| OrchestratorApp.PushAllTrimmed | crates/orchestrator/src/app.rs:75-78 | pushing with a trim after each line never exceeds the cap |
| OrchestratorApp.PushAllKeepsNewest | crates/orchestrator/src/app.rs:75-78 | the output keeps its newest lines, at most the cap, and the offset drops by the lines dropped, stopping at zero |
| OrchestratorApp.MaxScroll | crates/orchestrator/src/app.rs:111-113 | the last line's index, or 0 without lines |
| OrchestratorApp.ScrolledStaysInRange | crates/orchestrator/src/app.rs:115-125 | Home goes to the top, End to the bottom with follow mode on; an offset in range stays in range, and only moving down or to the end turns follow mode on |
| OrchestratorApp.Excess | crates/orchestrator/src/app.rs:524-525 | the number of logs past the cap |
| OrchestratorApp.FollowingPaneShowsNewest | crates/orchestrator/src/app.rs:515-535 | a following log pane still shows the newest line after the trim |
| OrchestratorApp.StillPaneKeepsItsLine | crates/orchestrator/src/app.rs:524-533 | a pane that does not follow keeps its line in view, moving up by the lines dropped above it |
| OrchestratorApp.AsU64 | crates/orchestrator/src/app.rs:605 | a number exactly for a non-negative integer below 2^64 |
| OrchestratorApp.LogsLimit | crates/orchestrator/src/app.rs:605-607 | 100 by default, and always between 1 and 200 |
| OrchestratorApp.LatestLogs | crates/orchestrator/src/app.rs:610 | the newest `limit` logs, newest first |
| OrchestratorApp.App.constructor | crates/orchestrator/src/app.rs:42-65 | idle, empty output and logs, no pending launch or error, both panes at the top |
| OrchestratorApp.App.GetMaxScroll | crates/orchestrator/src/app.rs:111-113 | the output's last line index |
| OrchestratorApp.App.TrimOutput | crates/orchestrator/src/app.rs:85-93 | past the cap the oldest line goes and a positive offset drops by one |
| OrchestratorApp.App.PushLines | crates/orchestrator/src/app.rs:75-78 | the output and offset become what pushing the lines one at a time, trimming after each, gives; follow mode is kept |
| OrchestratorApp.App.AppendOutput | crates/orchestrator/src/app.rs:72-83 | the wrapped pieces are pushed and trimmed one by one; a following pane then scrolls to the bottom |
| OrchestratorApp.App.ShowErrorWithDetails | crates/orchestrator/src/app.rs:101-104 | the error dialog holds the title, message and details and the mode shows it |
| OrchestratorApp.App.DismissError | crates/orchestrator/src/app.rs:106-109 | no dialog and back to idle |
| OrchestratorApp.App.HandleScroll | crates/orchestrator/src/app.rs:115-125 | the output pane scrolls as `Scrolled` says against the output's last line |
| OrchestratorApp.App.CanCancel | crates/orchestrator/src/app.rs:497-512 | true exactly in the recording, plan pending, executor running, confirming and error modes |
| OrchestratorApp.App.CancelExecutorConfirmation | crates/orchestrator/src/app.rs:481-487 | only while confirming: the pending launch is dropped, the mode goes idle and a line says so, with the scroll following the output as AppendOutput sets it; otherwise nothing changes |
| OrchestratorApp.App.PollLogs | crates/orchestrator/src/app.rs:515-535 | the polled logs are pushed, a following pane kept at the bottom, the oldest logs past 1000 dropped and the offset moved up by as many, stopping at zero |

## Left out

- Sockets, HTTP, the relay, Redis, mpsc channels, `tokio::select`, atomics and locks are not modelled; only the sequential state they guard is. A poisoned mutex, which the source treats as "no process", is not modelled.
- Process spawning and killing (`say`, `afplay`, executors), audio capture and WAV writing are left out. The outcome of a spawn or of `try_wait` is a parameter of the slot's methods.
- The file system, the clock and randomness are parameters: file contents arrive as `Option<string>` (None for a missing or unreadable file), timestamps as integers and random bytes as a sequence.
- YAML and JSON parsing and printing by serde are foreign and appear as function parameters over the `JsonValue.Value` datatype; YAML tags are not modelled.
- SHA-256 and the unified-diff application of `apply_patches` are opaque function parameters; file locks, temporary files and backups are left out.
- Floating-point confidence scores are real numbers; rounding of `f32` is not modelled.
- Case-insensitive matching uses ASCII lowercasing; Unicode case mappings beyond ASCII are not modelled.
- Artifacts.WordsToNumber: the `u32` accumulator is unbounded here, so the overflow of many repeated "hundred" words is not modelled.
- TtsSay.SaySlot.MarkSayProcess: tokens are unbounded; the wrap-around of the 64-bit counter after 2^64 launches is not modelled.
- The non-macOS `stop_say_process` and `is_say_process_active` stubs, which always answer false, and the non-macOS synthesize path are left out; only `parse_say_token`'s non-macOS answer is modelled.
- The history file of crates/orchestrator/src/session_history.rs is not read or written; the constructor takes the stored entries as a parameter.
- `load_last_session`, `save_session_status` and `load_session_summary` of the artifact store are file I/O and left out.
- Environment variables that are not valid Unicode are not modelled; `set_var` is a map update.
- crates/router/src/types.rs is not part of this model; the JSON plan extractor is modelled against the `CommandPlan` of crates/llm-interface/src/types.rs, which has the same fields.
- OrchestratorApp.App.PollLogs: the logs the control center hands over are a parameter; relay frame handling, JSON reply formatting, relay start-up, recording and executor launch in crates/orchestrator/src/app.rs are left out.
- OrchestratorApp.App.CanCancel: models the build with speech input, where the recording mode exists and can be cancelled.
- `wrap_lines` (crates/orchestrator/src/utils/text_wrap.rs:107-111) is the wrapper mapped over lines and is not modelled separately.
- `RoutingContext::reset` is the fresh routing context and is not a separate member.
- The router's LLM fallback, with its HTTP retries, is left out; its parsed answer is a parameter.
- Xtask.GetEnv: an empty key matches a line such as "=x", which the orchestrator's loader ignores; the lemmas state both behaviours, and the agreement lemma holds for non-empty keys.
- Xtask.PlainRelayUrl: the URL lemmas exclude a host named "ws", because `trim_end_matches` strips every trailing "/ws" and would eat the host too.
- SessionRecords.SessionHistory.GetLastCompleted, GetSession and GetRecent are plain reads of the entries; what they return is stated by the lemmas about `LastCompletedIndex`, `FindIndex` and `Recent`.
- OrchestratorApp.App.AppendOutput: answers the boundary-safe cut (TextWrap.WrapLineFixed) where `wrap_line` panics on a cut inside a character (crates/orchestrator/src/utils/text_wrap.rs:86); TextWrap.WrapLineSpec models the panic.
- OrchestratorApp.App.CancelExecutorConfirmation: answers the boundary-safe cut through AppendOutput, where the source's wrapping could panic.
- ExecutorSummary.GenericLines: answers the boundary-safe cut (StrUtil.TruncateBytes) where `truncate_text` panics on a cut inside a character (crates/control_center/src/executor/traits.rs:150-156); ExecutorSummary.TruncateTextAsWritten models the panic.
- ExecutorSummary.DescribeToolUse: answers the boundary-safe cut where the source panics, for the command at 50 bytes and the pattern at 30.
- ExecutorSummary.SummarizeToolResult: answers the boundary-safe cut where the source panics, for the error line at 80 bytes and the first line at 100.
- ExecutorSummary.UserItemLine: answers the boundary-safe cut where the source panics, at 200 bytes.
- ExecutorSummary.AssistantItemLine: answers the boundary-safe cut where the source panics, at 150 bytes.
- ExecutorSummary.LogLines: answers the boundary-safe cut where the source panics, for error messages at 100 bytes.
- ExecutorSummary.SummarizeLog: answers the boundary-safe cut where the source panics, for error messages at 100 bytes.
- ControlCenterLogs.ToolText: answers the boundary-safe cut (ControlCenterLogs.Shorten) where the 50-byte slice of a shell command panics (crates/control_center/src/logs.rs:208-209); ControlCenterLogs.ShortenAsWritten models the panic.
- ControlCenterLogs.ContentText: answers the boundary-safe cut where the 100-byte slice of the compact JSON panics (crates/control_center/src/logs.rs:257); ControlCenterLogs.ContentTextAsWritten models the panic.

## Findings

| source | as written | input that shows it | evidently intended | confidence | as-written member | corrected member |
|---|---|---|---|---|---|---|
| crates/orchestrator/src/utils/text_wrap.rs:86 | `text[..max_width]` slices at byte 100 whatever the characters | a 99-byte ASCII line followed by a two-byte character such as 'é' and more text: byte 100 is inside the character and the slice panics | wrap at a character boundary within 100 bytes | high, not executed | TextWrap.WrapPanicsMidCharacter | TextWrap.WrapLineFixedShape |
| src/router.rs:401-403 | the fixed phrase "phase 1" is searched for as a substring | "edit phase 12 please" gives phase 1 | phase 12, the number after "phase " | high, not executed | IntentRouter.PhaseReadAsFirstDigit | IntentRouter.PhaseNumberRead |
| src/router.rs:413-420 | the digits after "phase " must be followed by a non-digit | "phase 4" at the end of the text gives no phase | phase 4 | high, not executed | IntentRouter.PhaseAtEndLost | IntentRouter.PhaseNumberRead |
| src/artifacts.rs:439-456 | the path is joined to the artifacts directory and only its prefix is checked, without resolving ".." | "../notes.md" is accepted as "artifacts/../notes.md", which is outside the directory | refuse any path that leaves the artifacts directory | high, not executed | Artifacts.EscapingBatchApplied | Artifacts.BatchStaysInside |
| crates/control_center/src/executor/traits.rs:150-156 | `&text[..max_len]` slices at a byte count | a 149-byte ASCII message followed by 'é', cut at 150 bytes, panics | cut at the last character boundary within the limit | high, not executed | ExecutorSummary.TruncateTextPanics | StrUtil.TruncateBytesAgrees |
| crates/control_center/src/logs.rs:257 | `&compact[..100]` slices the compact JSON at a byte count | content with no text of its own whose compact JSON has 99 ASCII bytes and then 'é' panics | cut at the last character boundary within 100 bytes | high, not executed | ControlCenterLogs.CompactCutPanics | ControlCenterLogs.ContentText |
| crates/control_center/src/logs.rs:208-209 | `&cmd[..50]` slices at a byte count | a Bash command of 49 ASCII bytes followed by 'é' panics | cut at the last character boundary within 50 bytes | high, not executed | ControlCenterLogs.ShortenSplitsCharacter | ControlCenterLogs.ShortenAgrees |
