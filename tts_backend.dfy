/**
 * The local text-to-speech backend's bookkeeping: on macOS the `say`
 * process is tracked in a single slot under a numbered token, and the
 * token travels back to the caller inside the audio's note as
 * "macos-say:<token>". Spawning and killing processes are not modelled;
 * the slot records which token is live and which processes were stopped.
 */
module TtsSay {
  import opened StrUtil

  datatype Platform = MacOs | OtherPlatform

  const SAY_NOTE_PREFIX := "macos-say"

  /** What `synthesize` hands back: the sound bytes, their type and a note. */
  datatype TtsAudio = TtsAudio(bytes: seq<bv8>, contentType: string, note: Option<string>)

  /** `macos_say_note`: the prefix, a colon and the decimal token. */
  function SayNote(token: nat): (r: string)
    ensures StartsWith(r, SAY_NOTE_PREFIX + ":")
    ensures r[|SAY_NOTE_PREFIX + ":"|..] == NatToString(token)
  {
    SAY_NOTE_PREFIX + ":" + NatToString(token)
  }

  /** Rust `str::strip_prefix`. */
  function StripPrefix(s: string, p: string): (r: Option<string>)
    ensures r.Some? <==> StartsWith(s, p)
    ensures r.Some? ==> s == p + r.value
  {
    if StartsWith(s, p) then Some(s[|p|..]) else None
  }

  /**
   * `parse_say_token`: on macOS, a note of the prefix, a colon and a u64;
   * elsewhere never a token.
   */
  function ParseSayToken(platform: Platform, note: Option<string>): (r: Option<nat>)
    ensures platform == OtherPlatform ==> r.None?
    ensures platform == MacOs ==>
      (r.Some? <==> note.Some? && StartsWith(note.value, SAY_NOTE_PREFIX + ":")
                    && ParseU64(note.value[|SAY_NOTE_PREFIX + ":"|..]).Some?)
    ensures r.Some? ==> r.value < U64_BOUND && note.Some? && note.value == SAY_NOTE_PREFIX + ":" + note.value[10..]
  {
    match platform
    case OtherPlatform => None
    case MacOs =>
      if note.None? then None
      else match StripPrefix(note.value, SAY_NOTE_PREFIX)
        case None => None
        case Some(suffix) =>
          match StripPrefix(suffix, ":")
          case None => None
          case Some(digits) =>
            assert note.value == SAY_NOTE_PREFIX + ":" + digits;
            ParseU64(digits)
  }

  /** The token written into a note is the token read back from it. */
  lemma SayTokenRoundTrip(token: nat)
    requires token < U64_BOUND
    ensures ParseSayToken(MacOs, Some(SayNote(token))) == Some(token)
  {
    var note := SayNote(token);
    assert note[..|SAY_NOTE_PREFIX|] == SAY_NOTE_PREFIX;
    assert note[|SAY_NOTE_PREFIX|..] == ":" + NatToString(token);
    ParseFormatted(token, U64_BOUND);
  }

  /** A note without the "macos-say:" head, or no note at all, carries no token. */
  lemma ForeignNoteHasNoToken(note: Option<string>)
    requires note.None? || !StartsWith(note.value, SAY_NOTE_PREFIX + ":")
    ensures ParseSayToken(MacOs, note).None?
  {
  }

  /** The other local backend's note is not a say token. */
  lemma SpokenNoteHasNoToken()
    ensures ParseSayToken(MacOs, Some("Local TTS (already spoken via system)")).None?
  {
    var note := "Local TTS (already spoken via system)";
    assert note[0] != SAY_NOTE_PREFIX[0];
  }

  /** Both backends refuse text that trims to nothing, before doing anything else. */
  function CheckText(text: string): (r: Option<string>)
    ensures r.Some? <==> AllWhitespace(text)
    ensures r.Some? ==> r.value == "TTS input text was empty"
  {
    TrimEmptyIffAllWhitespace(text);
    if Trim(text) == [] then Some("TTS input text was empty") else None
  }

  /** What `try_wait` reported about the live `say` process. */
  datatype WaitOutcome = Exited | StillRunning | WaitFailed

  /** The macOS `say` process slot and the token counter. */
  class SaySlot {
    /** The token of the live `say` process, if any. */
    var live: Option<nat>
    /** The next token `mark_say_process` hands out. */
    var nextToken: nat
    /** Tokens of the processes killed so far, oldest first. */
    ghost var stopped: seq<nat>

    /** Every token ever handed out is below the counter. */
    ghost predicate Valid()
      reads this
    {
      nextToken >= 1 && (live.Some? ==> live.value < nextToken)
      && forall k :: 0 <= k < |stopped| ==> stopped[k] < nextToken
    }

    constructor ()
      ensures Valid() && live.None? && nextToken == 1 && stopped == []
    {
      live := None;
      nextToken := 1;
      stopped := [];
    }

    /**
     * `stop_say_process`: kills the live process when no token is given or
     * the token matches; otherwise the slot is left as it was.
     */
    method StopSayProcess(token: Option<nat>) returns (r: bool)
      requires Valid()
      modifies this
      ensures Valid()
      ensures r <==> old(live).Some? && (token.None? || token.value == old(live).value)
      ensures r ==> live.None? && stopped == old(stopped) + [old(live).value]
      ensures !r ==> live == old(live) && stopped == old(stopped)
      ensures nextToken == old(nextToken)
    {
      if live.Some? && (token.None? || token.value == live.value) {
        stopped := stopped + [live.value];
        live := None;
        r := true;
      } else {
        r := false;
      }
    }

    /**
     * `is_say_process_active`: only the live token can be active; a process
     * that exited, or whose status cannot be read, leaves the slot.
     */
    method IsSayProcessActive(token: nat, outcome: WaitOutcome) returns (r: bool)
      requires Valid()
      modifies this
      ensures Valid()
      ensures r <==> old(live) == Some(token) && outcome == StillRunning
      ensures old(live) == Some(token) && outcome != StillRunning ==> live.None?
      ensures old(live) != Some(token) || outcome == StillRunning ==> live == old(live)
      ensures nextToken == old(nextToken) && stopped == old(stopped)
    {
      if live.None? || live.value != token {
        r := false;
      } else if outcome == StillRunning {
        r := true;
      } else {
        live := None;
        r := false;
      }
    }

    /**
     * `mark_say_process`: a fresh token, larger than every earlier one;
     * any live process is killed and the new one takes the slot.
     */
    method MarkSayProcess() returns (token: nat)
      requires Valid()
      modifies this
      ensures Valid()
      ensures token == old(nextToken) && nextToken == token + 1 && live == Some(token)
      ensures old(live).Some? ==> old(live).value < token && stopped == old(stopped) + [old(live).value]
      ensures old(live).None? ==> stopped == old(stopped)
    {
      token := nextToken;
      nextToken := nextToken + 1;
      if live.Some? {
        stopped := stopped + [live.value];
      }
      live := Some(token);
    }

    /**
     * The macOS local backend's `synthesize`: blank text is refused and the
     * slot untouched; a failed spawn is an error; otherwise the new process
     * is marked and its token put in the note.
     */
    method SynthesizeLocally(text: string, spawned: bool, wav: seq<bv8>) returns (r: Result<TtsAudio>)
      requires Valid()
      modifies this
      ensures Valid()
      ensures AllWhitespace(text) ==> r == Err("TTS input text was empty")
      ensures r.Err? ==> live == old(live) && nextToken == old(nextToken) && stopped == old(stopped)
      ensures r.Ok? <==> !AllWhitespace(text) && spawned
      ensures r.Ok? ==> live == Some(old(nextToken))
      ensures r.Ok? ==> r.value.contentType == "audio/wav" && r.value.note == Some(SayNote(old(nextToken)))
      ensures r.Ok? && old(nextToken) < U64_BOUND ==> ParseSayToken(MacOs, r.value.note) == live
    {
      var refused := CheckText(text);
      if refused.Some? {
        return Err(refused.value);
      }
      if !spawned {
        return Err("Failed to spawn macOS say command");
      }
      var token := MarkSayProcess();
      if token < U64_BOUND {
        SayTokenRoundTrip(token);
      }
      r := Ok(TtsAudio(wav, "audio/wav", Some(SayNote(token))));
    }
  }
}
