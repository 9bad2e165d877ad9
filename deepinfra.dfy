/**
 * Base64 as CPython's `base64.b64decode` (non-validating `binascii.a2b_base64`)
 * decodes it, with the standard RFC 4648 section 4 encoder as its inverse.
 */
module Base64 {
  import opened StrUtil

  type byte = x: int | 0 <= x < 256

  /** The RFC 4648 section 4 alphabet. */
  function AlphabetChar(v: nat): (c: char)
    requires v < 64
    ensures c as int < 0x80 && c != '='
  {
    if v < 26 then ('A' as int + v) as char
    else if v < 52 then ('a' as int + (v - 26)) as char
    else if v < 62 then ('0' as int + (v - 52)) as char
    else if v == 62 then '+'
    else '/'
  }

  /** The decoding table: the 6-bit value of an alphabet character, None for any other character. */
  function Sextet(c: char): (r: Option<nat>)
    ensures r.Some? ==> r.value < 64
  {
    if 'A' <= c <= 'Z' then Some(c as int - 'A' as int)
    else if 'a' <= c <= 'z' then Some(c as int - 'a' as int + 26)
    else if '0' <= c <= '9' then Some(c as int - '0' as int + 52)
    else if c == '+' then Some(62)
    else if c == '/' then Some(63)
    else None
  }

  lemma SextetOfAlphabet(v: nat)
    requires v < 64
    ensures Sextet(AlphabetChar(v)) == Some(v)
  {
  }

  /** Decoder state: position in the current quad, the pending bits, the run of '=' seen, the output. */
  datatype DecState = DecState(quad: nat, left: nat, pads: nat, out: seq<byte>)

  const Start := DecState(0, 0, 0, [])

  /** One alphabet character of value `v` (< 64) fed to the decoder; `pads` is reset. */
  function Feed(st: DecState, v: nat): (r: DecState)
    requires v < 64 && st.quad < 4
    requires st.quad == 1 ==> st.left < 64
    requires st.quad == 2 ==> st.left < 16
    requires st.quad == 3 ==> st.left < 4
    ensures r.quad == (st.quad + 1) % 4 && r.pads == 0
    ensures r.out == st.out || (|r.out| == |st.out| + 1 && r.out[..|st.out|] == st.out)
  {
    match st.quad
    case 0 => DecState(1, v, 0, st.out)
    case 1 => DecState(2, v % 16, 0, st.out + [st.left * 4 + v / 16])
    case 2 => DecState(3, v % 4, 0, st.out + [st.left * 16 + v / 4])
    case _ => DecState(0, 0, 0, st.out + [st.left * 64 + v])
  }

  ghost predicate WellFormed(st: DecState)
  {
    st.quad < 4 &&
    (st.quad == 0 ==> st.left == 0) &&
    (st.quad == 1 ==> st.left < 64) &&
    (st.quad == 2 ==> st.left < 16) &&
    (st.quad == 3 ==> st.left < 4)
  }

  /**
   * The decoding loop over the rest of the input. Characters outside the
   * alphabet are skipped; '=' is ignored before two data characters of a
   * quad, and otherwise ends decoding (ignoring the rest of the input) once
   * the quad is complete; at the end of input a partial quad is an error.
   */
  function DecodeFrom(s: string, st: DecState): (r: Option<seq<byte>>)
    requires WellFormed(st)
    ensures r.Some? ==> |r.value| >= |st.out| && r.value[..|st.out|] == st.out
    decreases |s|
  {
    if s == [] then
      if st.quad == 0 then Some(st.out) else None
    else if s[0] == '=' then
      if st.quad >= 2 && st.quad + st.pads + 1 >= 4 then Some(st.out)
      else DecodeFrom(s[1..], st.(pads := if st.quad >= 2 then st.pads + 1 else st.pads))
    else match Sextet(s[0])
      case None => DecodeFrom(s[1..], st)
      case Some(v) =>
        var next := Feed(st, v);
        var r := DecodeFrom(s[1..], next);
        assert r.Some? ==> r.value[..|st.out|] == r.value[..|next.out|][..|st.out|];
        r
  }

  /** `base64.b64decode(s)`: a non-ASCII string is rejected, otherwise the decoding loop. */
  function Decode(s: string): (r: Option<seq<byte>>)
    ensures !IsAscii(s) ==> r.None?
  {
    if !IsAscii(s) then None else DecodeFrom(s, Start)
  }

  /** The encoder of RFC 4648 section 4, with '=' padding. */
  function Encode(b: seq<byte>): (r: string)
    ensures |r| % 4 == 0 && |r| == (|b| + 2) / 3 * 4
    ensures IsAscii(r)
  {
    if |b| == 0 then []
    else if |b| == 1 then
      [AlphabetChar(b[0] / 4), AlphabetChar(b[0] % 4 * 16), '=', '=']
    else if |b| == 2 then
      [AlphabetChar(b[0] / 4), AlphabetChar(b[0] % 4 * 16 + b[1] / 16), AlphabetChar(b[1] % 16 * 4), '=']
    else
      Group(b[0], b[1], b[2]) + Encode(b[3..])
  }

  function Group(b0: byte, b1: byte, b2: byte): (r: string)
    ensures |r| == 4 && IsAscii(r)
  {
    [AlphabetChar(b0 / 4), AlphabetChar(b0 % 4 * 16 + b1 / 16), AlphabetChar(b1 % 16 * 4 + b2 / 64), AlphabetChar(b2 % 64)]
  }

  lemma ByteSplit(b0: byte, b1: byte, b2: byte)
    ensures b0 / 4 * 4 + (b0 % 4 * 16 + b1 / 16) / 16 == b0
    ensures (b0 % 4 * 16 + b1 / 16) % 16 * 16 + (b1 % 16 * 4 + b2 / 64) / 4 == b1
    ensures (b1 % 16 * 4 + b2 / 64) % 4 * 64 + b2 % 64 == b2
  {
  }

  /** Decoding a full encoded group appends its three bytes. */
  lemma DecodeGroup(b0: byte, b1: byte, b2: byte, rest: string, out: seq<byte>)
    ensures DecodeFrom(Group(b0, b1, b2) + rest, DecState(0, 0, 0, out)) == DecodeFrom(rest, DecState(0, 0, 0, out + [b0, b1, b2]))
  {
    var g := Group(b0, b1, b2) + rest;
    var v0, v1, v2, v3 := b0 / 4, b0 % 4 * 16 + b1 / 16, b1 % 16 * 4 + b2 / 64, b2 % 64;
    ByteSplit(b0, b1, b2);
    SextetOfAlphabet(v0);
    SextetOfAlphabet(v1);
    SextetOfAlphabet(v2);
    SextetOfAlphabet(v3);
    var s0 := DecState(0, 0, 0, out);
    var s1 := Feed(s0, v0);
    var s2 := Feed(s1, v1);
    var s3 := Feed(s2, v2);
    var s4 := Feed(s3, v3);
    assert s4 == DecState(0, 0, 0, out + [b0, b1, b2]);
    assert g[0] == AlphabetChar(v0) && g[1..][0] == AlphabetChar(v1);
    assert g[1..][1..][0] == AlphabetChar(v2) && g[1..][1..][1..][0] == AlphabetChar(v3);
    assert g[1..][1..][1..][1..] == rest;
    assert DecodeFrom(g, s0) == DecodeFrom(g[1..], s1);
    assert DecodeFrom(g[1..], s1) == DecodeFrom(g[1..][1..], s2);
    assert DecodeFrom(g[1..][1..], s2) == DecodeFrom(g[1..][1..][1..], s3);
    assert DecodeFrom(g[1..][1..][1..], s3) == DecodeFrom(rest, s4);
  }

  lemma DecodeOneByte(b0: byte, out: seq<byte>)
    ensures DecodeFrom(Encode([b0]), DecState(0, 0, 0, out)) == Some(out + [b0])
  {
    var e := Encode([b0]);
    var v0, v1 := b0 / 4, b0 % 4 * 16;
    SextetOfAlphabet(v0);
    SextetOfAlphabet(v1);
    var s0 := DecState(0, 0, 0, out);
    var s1 := Feed(s0, v0);
    var s2 := Feed(s1, v1);
    assert s2 == DecState(2, 0, 0, out + [b0]);
    assert e[1..][1..][1..] == ['='];
    assert DecodeFrom(e, s0) == DecodeFrom(e[1..], s1);
    assert DecodeFrom(e[1..], s1) == DecodeFrom(e[1..][1..], s2);
    assert DecodeFrom(e[1..][1..], s2) == DecodeFrom(e[1..][1..][1..], s2.(pads := 1));
  }

  lemma DecodeTwoBytes(b0: byte, b1: byte, out: seq<byte>)
    ensures DecodeFrom(Encode([b0, b1]), DecState(0, 0, 0, out)) == Some(out + [b0, b1])
  {
    var e := Encode([b0, b1]);
    var v0, v1, v2 := b0 / 4, b0 % 4 * 16 + b1 / 16, b1 % 16 * 4;
    ByteSplit(b0, b1, 0);
    SextetOfAlphabet(v0);
    SextetOfAlphabet(v1);
    SextetOfAlphabet(v2);
    var s0 := DecState(0, 0, 0, out);
    var s1 := Feed(s0, v0);
    var s2 := Feed(s1, v1);
    var s3 := Feed(s2, v2);
    assert s3 == DecState(3, 0, 0, out + [b0, b1]);
    assert e[1..][1..][1..] == ['='];
    assert DecodeFrom(e, s0) == DecodeFrom(e[1..], s1);
    assert DecodeFrom(e[1..], s1) == DecodeFrom(e[1..][1..], s2);
    assert DecodeFrom(e[1..][1..], s2) == DecodeFrom(e[1..][1..][1..], s3);
  }

  lemma {:induction false} DecodeEncodeFrom(b: seq<byte>, out: seq<byte>)
    ensures DecodeFrom(Encode(b), DecState(0, 0, 0, out)) == Some(out + b)
    decreases |b|
  {
    if |b| == 0 {
      assert out + b == out;
    } else if |b| == 1 {
      assert b == [b[0]];
      DecodeOneByte(b[0], out);
    } else if |b| == 2 {
      assert b == [b[0], b[1]];
      DecodeTwoBytes(b[0], b[1], out);
    } else {
      DecodeGroup(b[0], b[1], b[2], Encode(b[3..]), out);
      DecodeEncodeFrom(b[3..], out + [b[0], b[1], b[2]]);
      FirstThree(out, b);
    }
  }

  /** Round trip: decoding the encoding of any byte string gives it back. */
  lemma DecodeEncode(b: seq<byte>)
    ensures Decode(Encode(b)) == Some(b)
  {
    DecodeEncodeFrom(b, []);
  }

  /** A single data character after complete quads is an error ("cannot be 1 more than a multiple of 4"). */
  lemma DecodeLoneCharFails(b: seq<byte>, v: nat)
    requires v < 64 && |b| % 3 == 0
    ensures Decode(Encode(b) + [AlphabetChar(v)]).None?
  {
    DecodeTrailing(b, [], [AlphabetChar(v)]);
    SextetOfAlphabet(v);
    var e := Encode(b) + [AlphabetChar(v)];
    assert IsAscii(e);
  }

  lemma {:induction false} DecodeTrailing(b: seq<byte>, out: seq<byte>, rest: string)
    requires |b| % 3 == 0
    ensures DecodeFrom(Encode(b) + rest, DecState(0, 0, 0, out)) == DecodeFrom(rest, DecState(0, 0, 0, out + b))
    decreases |b|
  {
    if |b| == 0 {
      assert Encode(b) + rest == rest;
      assert out + b == out;
    } else {
      var tail := Encode(b[3..]);
      assert Encode(b) == Group(b[0], b[1], b[2]) + tail;
      assert Encode(b) + rest == Group(b[0], b[1], b[2]) + (tail + rest);
      DecodeGroup(b[0], b[1], b[2], tail + rest, out);
      LengthLessThree(b);
      DecodeTrailing(b[3..], out + [b[0], b[1], b[2]], rest);
      FirstThree(out, b);
    }
  }

  /** Dropping the first three bytes keeps the length's remainder modulo 3. */
  lemma LengthLessThree(b: seq<byte>)
    requires |b| >= 3
    ensures |b[3..]| % 3 == |b| % 3
  {
    assert |b[3..]| == |b| - 3;
  }

  /** The first three bytes, then the others, make the whole string. */
  lemma FirstThree(out: seq<byte>, b: seq<byte>)
    requires |b| >= 3
    ensures out + [b[0], b[1], b[2]] + b[3..] == out + b
  {
    assert [b[0], b[1], b[2]] + b[3..] == b;
  }

  /** The '=' padding at the end of an encoding: two for one leftover byte, one for two. */
  lemma {:induction false} EncodePaddingTail(b: seq<byte>)
    ensures |b| % 3 == 1 ==> EndsWith(Encode(b), "==")
    ensures |b| % 3 == 2 ==> EndsWith(Encode(b), "=")
    decreases |b|
  {
    if |b| == 1 {
      assert Encode(b)[2..] == "==";
    } else if |b| == 2 {
      assert Encode(b)[3..] == "=";
    } else if |b| >= 3 {
      EncodePaddingTail(b[3..]);
      LengthLessThree(b);
      var g := Group(b[0], b[1], b[2]);
      var t := Encode(b[3..]);
      assert Encode(b) == g + t;
      if |b| % 3 == 1 { EndsWithAppend(g, t, "=="); }
      if |b| % 3 == 2 { EndsWithAppend(g, t, "="); }
    }
  }
}

/**
 * The DeepInfra Kokoro client script: which credential it uses, how it digs
 * the base64 audio out of the JSON response, and what it does with it.
 */
module DeepInfra {
  import opened StrUtil
  import opened JsonValue
  import Base64

  const URL: string := "https://api.deepinfra.com/v1/inference/hexgrad/Kokoro-82M"
  const VOICE: string := "af_bella"
  const FORMAT: string := "wav"
  const OUTFILE: string := "kokoro_out." + FORMAT

  /** What the script does at start-up: go on with a key, or exit with status 1. */
  datatype Startup = Proceed(apiKey: string) | Exit(code: int)

  /**
   * `DEEPINFRA_API_KEY or DEEPINFRA_API_TOKEN`, where an unset or empty
   * variable is falsy; with neither, the script exits with status 1.
   */
  function SelectApiKey(key: Option<string>, token: Option<string>): (r: Startup)
    ensures key.Some? && key.value != [] ==> r == Proceed(key.value)
    ensures (key.None? || key.value == []) && token.Some? && token.value != [] ==> r == Proceed(token.value)
    ensures r.Exit? <==> (key.None? || key.value == []) && (token.None? || token.value == [])
    ensures r.Exit? ==> r.code == 1
    ensures r.Proceed? ==> r.apiKey != []
  {
    if key.Some? && key.value != [] then Proceed(key.value)
    else if token.Some? && token.value != [] then Proceed(token.value)
    else Exit(1)
  }

  /** The audio value chosen from the payload: top-level "audio" unless it is falsy. */
  function AudioField(payload: Value): (r: Option<Value>)
    requires payload.Obj?
    ensures Get(payload, "audio").Some? && Truthy(Get(payload, "audio").value) ==> r == Get(payload, "audio")
    ensures r != Get(payload, "audio") ==>
      (Get(payload, "audio").None? || !Truthy(Get(payload, "audio").value)) &&
      Get(payload, "output").Some? && Get(payload, "output").value.Arr? &&
      Get(payload, "output").value.items != [] && Get(payload, "output").value.items[0].Obj? &&
      r == Get(Get(payload, "output").value.items[0], "audio")
  {
    var top := Get(payload, "audio");
    if (top.None? || !Truthy(top.value)) && Get(payload, "output").Some? && Get(payload, "output").value.Arr? then
      var arr := Get(payload, "output").value.items;
      if arr != [] && arr[0].Obj? then Get(arr[0], "audio") else top
    else top
  }

  /** Python `s.split(",", 1)[1]` when `s` holds a comma, else `s`. */
  function AfterFirstComma(s: string): (r: string)
    ensures ',' in s ==> exists k :: 0 <= k < |s| && s[k] == ',' && ',' !in s[..k] && r == s[k + 1..]
    ensures ',' !in s ==> r == s
  {
    match SplitOnce(s, ',')
    case None => s
    case Some((before, after)) =>
      assert s[|before|] == ',' && s[..|before|] == before && s[|before| + 1..] == after;
      after
  }

  /** Append '=' until the length is a multiple of 4. */
  function Pad(s: string): (r: string)
    ensures |r| % 4 == 0
    ensures |s| <= |r| <= |s| + 3
    ensures r[..|s|] == s && forall i :: |s| <= i < |r| ==> r[i] == '='
    ensures |s| % 4 == 0 ==> r == s
  {
    var pad := |s| % 4;
    if pad != 0 then s + seq(4 - pad, _ => '=') else s
  }

  /** `_extract_base64_audio`: the decoded audio bytes, or None. */
  function ExtractBase64Audio(payload: Value): (r: Option<seq<Base64.byte>>)
    requires payload.Obj?
    ensures AsStr(AudioField(payload)).None? ==> r.None?
    ensures AudioField(payload).Some? && AudioField(payload).value == Str([]) ==> r.None?
  {
    var field := AudioField(payload);
    if field.None? || !Truthy(field.value) || !field.value.Str? then None
    else Base64.Decode(Pad(AfterFirstComma(field.value.s)))
  }

  /**
   * When the top-level "audio" is missing or falsy and `output[0]` is an
   * object holding a non-empty audio string, that string is the one decoded.
   */
  lemma OutputFallbackUsed(payload: Value, first: Value, s: string)
    requires payload.Obj?
    requires Get(payload, "audio").None? || !Truthy(Get(payload, "audio").value)
    requires Get(payload, "output").Some? && Get(payload, "output").value.Arr?
    requires Get(payload, "output").value.items != [] && Get(payload, "output").value.items[0] == first
    requires first.Obj? && Get(first, "audio") == Some(Str(s)) && s != []
    ensures ExtractBase64Audio(payload) == Base64.Decode(Pad(AfterFirstComma(s)))
  {
  }

  /** What `main` does with a decoded response: write the audio, exit 1, or crash on a non-object. */
  datatype Outcome = WriteAudio(path: string, bytes: seq<Base64.byte>) | ExitFailure | Crash

  function HandleResponse(data: Value): (r: Outcome)
    ensures r.WriteAudio? ==> r.path == OUTFILE && r.bytes != []
    ensures !data.Obj? <==> r.Crash?
  {
    if !data.Obj? then Crash
    else match ExtractBase64Audio(data)
      case Some(b) => if b == [] then ExitFailure else WriteAudio(OUTFILE, b)
      case None => ExitFailure
  }

  // ---------------------------------------------------------------------------
  // Properties
  // ---------------------------------------------------------------------------

  /** A non-empty top-level "audio" string is used even when "output" also holds audio. */
  lemma TopLevelAudioWins(payload: Value, s: string)
    requires payload.Obj? && Get(payload, "audio") == Some(Str(s)) && s != []
    ensures AudioField(payload) == Some(Str(s))
    ensures ExtractBase64Audio(payload) == Base64.Decode(Pad(AfterFirstComma(s)))
  {
  }

  /** The fallback applies only to a non-empty "output" list whose first element is an object. */
  lemma FallbackNeedsListOfObject(payload: Value)
    requires payload.Obj?
    requires Get(payload, "audio").None? || !Truthy(Get(payload, "audio").value)
    ensures AudioField(payload) != Get(payload, "audio") ==>
      Get(payload, "output").Some? && Get(payload, "output").value.Arr? &&
      Get(payload, "output").value.items != [] && Get(payload, "output").value.items[0].Obj?
  {
  }

  lemma AfterFirstCommaOfDataUrl(mediaType: string, body: string)
    requires ',' !in mediaType
    ensures AfterFirstComma(mediaType + "," + body) == body
  {
    var s := mediaType + "," + body;
    assert s[|mediaType|] == ',';
    assert forall j :: 0 <= j < |mediaType| ==> s[j] == mediaType[j];
    assert s[..|mediaType|] == mediaType;
    assert s[|mediaType| + 1..] == body;
  }

  /** A data URL whose body is the encoding of `b` yields `b`. */
  lemma DataUrlRoundTrip(mediaType: string, b: seq<Base64.byte>)
    requires ',' !in mediaType
    ensures ExtractBase64Audio(Obj([Member(Str("audio"), Str(mediaType + "," + Base64.Encode(b)))])) == Some(b)
  {
    var e := Base64.Encode(b);
    var s := mediaType + "," + e;
    assert |s| > 0;
    OnlyAudioMember(s);
    AfterFirstCommaOfDataUrl(mediaType, e);
    Base64.DecodeEncode(b);
  }

  /** A payload holding only a non-empty "audio" string decodes that string. */
  lemma OnlyAudioMember(s: string)
    requires s != []
    ensures ExtractBase64Audio(Obj([Member(Str("audio"), Str(s))])) == Base64.Decode(Pad(AfterFirstComma(s)))
  {
    var payload := Obj([Member(Str("audio"), Str(s))]);
    assert Get(payload, "audio") == Some(Str(s));
    TopLevelAudioWins(payload, s);
  }

  /** Missing '=' padding is restored: an encoding with its padding cut off still decodes. */
  lemma MissingPaddingRestored(b: seq<Base64.byte>)
    ensures Base64.Decode(Pad(UnpaddedEncoding(b))) == Some(b)
  {
    var e := Base64.Encode(b);
    Base64.EncodePaddingTail(b);
    if |b| % 3 == 1 {
      PadRestores(e, "==");
    } else if |b| % 3 == 2 {
      PadRestores(e, "=");
    }
    Base64.DecodeEncode(b);
  }

  /** Cutting one or two final '=' from a padded text and padding it again gives it back. */
  lemma PadRestores(e: string, p: string)
    requires |e| % 4 == 0 && (p == "=" || p == "==") && EndsWith(e, p)
    ensures Pad(e[..|e| - |p|]) == e
  {
    var u := e[..|e| - |p|];
    assert |u| % 4 == 4 - |p|;
    assert seq(|p|, _ => '=') == p;
    assert u + p == e;
  }

  /** The encoding of `b` without its trailing '=' characters. */
  function UnpaddedEncoding(b: seq<Base64.byte>): (r: string)
    ensures |r| <= |Base64.Encode(b)|
  {
    var e := Base64.Encode(b);
    if |b| % 3 == 1 then e[..|e| - 2] else if |b| % 3 == 2 then e[..|e| - 1] else e
  }
}
