/**
 * Line wrapping for the orchestrator's output pane
 * (crates/orchestrator/src/utils/text_wrap.rs). Widths are counted in
 * UTF-8 bytes, as Rust's `str::len` counts them; a string is a sequence
 * of characters and a byte offset is the byte length of a prefix. Where
 * the source slices a string at a byte offset inside a character (a
 * panic in Rust), the model answers None.
 */
module TextWrap {
  import opened StrUtil

  const MAX_LINE_WIDTH: nat := 100
  const CONTINUATION_INDENT: string := "  "
  const PREFIXES: seq<string> := ["ASR>", "PLAN>", "EXEC>", "WARN>", "UTTERANCE>", "Claude:", "Devin:"]
  const DELIMITERS: seq<char> := [',', '.', ';', ':', '!', '?', '-', '/', '\\']

  /**
   * `extract_prefix`: the first listed prefix the line starts with, taking
   * one following space along, and the rest of the line; no prefix when
   * none matches.
   */
  function ExtractPrefix(line: string, prefixes: seq<string>): (r: (string, string))
    ensures r.0 + r.1 == line
    ensures r.0 == [] || exists k :: 0 <= k < |prefixes| && StartsWith(line, prefixes[k]) && (r.0 == prefixes[k] || r.0 == prefixes[k] + " ")
    ensures (forall k :: 0 <= k < |prefixes| ==> !StartsWith(line, prefixes[k])) ==> r.0 == []
    decreases |prefixes|
  {
    if prefixes == [] then ([], line)
    else
      var p := prefixes[0];
      if StartsWith(line, p) then
        if |line| > |p| && line[|p|] == ' ' then
          assert line[..|p| + 1] == p + " ";
          (line[..|p| + 1], line[|p| + 1..])
        else (p, line[|p|..])
      else
        var r := ExtractPrefix(line, prefixes[1..]);
        assert r.0 != [] ==> exists k :: 1 <= k < |prefixes| && StartsWith(line, prefixes[k]) && (r.0 == prefixes[k] || r.0 == prefixes[k] + " ") by {
          if r.0 != [] {
            var k :| 0 <= k < |prefixes[1..]| && StartsWith(line, prefixes[1..][k]) && (r.0 == prefixes[1..][k] || r.0 == prefixes[1..][k] + " ");
            assert prefixes[1..][k] == prefixes[k + 1];
          }
        }
        r
  }

  /** Every known prefix is ASCII and at most ten characters long. */
  lemma PrefixesShort()
    ensures forall k :: 0 <= k < |PREFIXES| ==> IsAscii(PREFIXES[k]) && |PREFIXES[k]| <= 10
  {
  }

  /** The extracted prefix takes at most eleven bytes. */
  lemma ExtractedPrefixShort(line: string)
    ensures ByteLen(ExtractPrefix(line, PREFIXES).0) <= 11
  {
    var prefix := ExtractPrefix(line, PREFIXES).0;
    PrefixesShort();
    if prefix != [] {
      var k :| 0 <= k < |PREFIXES| && (prefix == PREFIXES[k] || prefix == PREFIXES[k] + " ");
      assert IsAscii(prefix);
      ByteLenAscii(prefix);
    }
  }

  /**
   * The punctuation fallback: the first delimiter, in list order, whose
   * last occurrence lies past half the width; the break goes just after it.
   */
  function DelimiterBreak(window: string, delims: seq<char>, maxWidth: nat): (r: Option<nat>)
    ensures r.Some? ==> 1 <= r.value <= |window| && window[r.value - 1] in delims
    decreases |delims|
  {
    if delims == [] then None
    else match LastIndexOf(window, delims[0])
      case Some(j) =>
        if ByteLen(window[..j]) > maxWidth / 2 then Some(j + 1) else DelimiterBreak(window, delims[1..], maxWidth)
      case None => DelimiterBreak(window, delims[1..], maxWidth)
  }

  /**
   * The cut inside a window of the first `m` characters (at most
   * `maxWidth` bytes): just after the last space when that space lies past
   * half the width; else just after a delimiter found the same way; else
   * the whole window.
   */
  function CutIn(text: string, m: nat, maxWidth: nat): (k: nat)
    requires m <= |text| && ByteLen(text[..m]) <= maxWidth
    ensures k <= m && ByteLen(text[..k]) <= maxWidth
    ensures m >= 1 ==> k >= 1
  {
    var window := text[..m];
    var space := LastIndexOf(window, ' ');
    var k :=
      if space.Some? && ByteLen(window[..space.value]) > maxWidth / 2 then space.value + 1
      else match DelimiterBreak(window, DELIMITERS, maxWidth)
        case Some(d) => d
        case None => m;
    assert text[..k] == window[..k];
    PrefixNoLonger(text, k, m);
    k
  }

  /** `CutIn` cuts at the end of the window, or just after a space or a delimiter. */
  lemma CutInShape(text: string, m: nat, maxWidth: nat)
    requires m <= |text| && ByteLen(text[..m]) <= maxWidth
    ensures var k := CutIn(text, m, maxWidth);
      k == m || (k >= 1 && (text[k - 1] == ' ' || text[k - 1] in DELIMITERS))
  {
    var window := text[..m];
    var k := CutIn(text, m, maxWidth);
    var space := LastIndexOf(window, ' ');
    if space.Some? && ByteLen(window[..space.value]) > maxWidth / 2 {
      assert k == space.value + 1 && window[space.value] == text[space.value];
    } else {
      match DelimiterBreak(window, DELIMITERS, maxWidth)
      case Some(d) =>
        assert k == d && window[d - 1] == text[d - 1];
      case None =>
        assert k == m;
    }
  }

  /**
   * Whenever a space of the window lies past half the width (in bytes),
   * `CutIn` cuts just after the last space of the window.
   */
  lemma CutAfterLastSpace(text: string, m: nat, maxWidth: nat, j: nat)
    requires m <= |text| && ByteLen(text[..m]) <= maxWidth
    requires j < m && text[j] == ' ' && ByteLen(text[..j]) > maxWidth / 2
    ensures var k := CutIn(text, m, maxWidth);
      j < k && text[k - 1] == ' ' && forall i :: k <= i < m ==> text[i] != ' '
  {
    var window := text[..m];
    var k := CutIn(text, m, maxWidth);
    var space := LastIndexOf(window, ' ');
    assert window[j] == ' ';
    var s := space.value;
    assert j <= s;
    assert window[..s] == text[..s] && window[..j] == text[..j];
    PrefixNoLonger(text, j, s);
    assert k == s + 1 && window[s] == text[s];
    forall i | k <= i < m ensures text[i] != ' ' {
      assert window[i] == text[i];
    }
  }

  /**
   * `find_break_point`, as a character count: all of `text` when it fits
   * in `maxWidth` bytes, else the cut inside the first `maxWidth` bytes.
   * The source's byte offset is `ByteLen(text[..k])`. None when byte
   * `maxWidth` falls inside a character, where the source's
   * `&text[..max_width]` panics.
   */
  function FindBreakPoint(text: string, maxWidth: nat): (r: Option<nat>)
    ensures r.None? <==> ByteLen(text) > maxWidth && CharIndexAtByte(text, maxWidth).None?
    ensures r.Some? ==> r.value <= |text| && ByteLen(text[..r.value]) <= maxWidth
    ensures r.Some? && text != [] && maxWidth >= 1 ==> r.value >= 1
    ensures ByteLen(text) <= maxWidth ==> r == Some(|text|)
    ensures r.Some? && ByteLen(text) > maxWidth ==>
      var m := CharIndexAtByte(text, maxWidth).value;
      m <= |text| && ByteLen(text[..m]) <= maxWidth && r.value == CutIn(text, m, maxWidth)
  {
    if ByteLen(text) <= maxWidth then
      assert text[..|text|] == text;
      Some(|text|)
    else match CharIndexAtByte(text, maxWidth)
      case None => None
      case Some(m) =>
        assert m != 0 || maxWidth == 0;
        Some(CutIn(text, m, maxWidth))
  }

  /**
   * The evidently intended `find_break_point`: the same cut, with the
   * window ending at the last character boundary within `maxWidth` bytes,
   * so it is defined for every text.
   */
  function BreakPoint(text: string, maxWidth: nat): (k: nat)
    ensures k <= |text| && ByteLen(text[..k]) <= maxWidth
    ensures text != [] && maxWidth >= 4 ==> k >= 1
  {
    if ByteLen(text) <= maxWidth then
      assert text[..|text|] == text;
      |text|
    else
      var m := CharsWithin(text, maxWidth);
      FirstCharFits(text, maxWidth);
      CutIn(text, m, maxWidth)
  }

  /** A window of at least four bytes holds at least one character. */
  lemma FirstCharFits(text: string, maxWidth: nat)
    ensures text != [] && maxWidth >= 4 ==> CharsWithin(text, maxWidth) >= 1
  {
    if text != [] {
      ByteLenPrefixStep(text, 0);
      assert text[..0] == [];
    }
  }

  /** Where the source does not panic, it cuts where the intended version does. */
  lemma BreakPointAgrees(text: string, maxWidth: nat)
    requires FindBreakPoint(text, maxWidth).Some?
    ensures FindBreakPoint(text, maxWidth).value == BreakPoint(text, maxWidth)
  {
    if ByteLen(text) > maxWidth {
      var m := CharIndexAtByte(text, maxWidth).value;
      var c := CharsWithin(text, maxWidth);
      NoLongerPrefix(text, m, c);
      if c < |text| {
        ShorterPrefix(text, c + 1, m);
      }
    }
  }

  /** A prefix with no more bytes has no more characters. */
  lemma NoLongerPrefix(s: string, j: nat, k: nat)
    requires j <= |s| && k <= |s|
    requires ByteLen(s[..k]) <= ByteLen(s[..j])
    ensures k <= j
  {
    if j < k {
      ByteLenPrefixMonotone(s, j, k);
    }
  }

  /** A prefix with fewer bytes has fewer characters. */
  lemma ShorterPrefix(s: string, j: nat, k: nat)
    requires j <= |s| && k <= |s|
    requires ByteLen(s[..k]) < ByteLen(s[..j])
    ensures k < j
  {
    if j <= k {
      PrefixNoLonger(s, j, k);
    }
  }

  lemma PrefixNoLonger(s: string, j: nat, k: nat)
    requires j <= k <= |s|
    ensures ByteLen(s[..j]) <= ByteLen(s[..k])
  {
    if j < k { ByteLenPrefixMonotone(s, j, k); }
  }

  /** The pieces `wrap_line`'s loop cuts from `text`: the first within `width` bytes, the others within `contWidth`. */
  function WrapPieces(text: string, width: nat, contWidth: nat): (r: Option<seq<string>>)
    requires width >= 4 && contWidth >= 4
    decreases |text|
  {
    if text == [] then Some([])
    else match FindBreakPoint(text, width)
      case None => None
      case Some(k) =>
        match WrapPieces(TrimStart(text[k..]), contWidth, contWidth)
        case None => None
        case Some(rest) => Some([text[..k]] + rest)
  }

  /** The pieces the intended cut gives; defined for every text. */
  function FixedPieces(text: string, width: nat, contWidth: nat): seq<string>
    requires width >= 4 && contWidth >= 4
    decreases |text|
  {
    if text == [] then []
    else
      var k := BreakPoint(text, width);
      [text[..k]] + FixedPieces(TrimStart(text[k..]), contWidth, contWidth)
  }

  /** Where the source's loop does not panic, it cuts the intended pieces. */
  lemma {:induction false} PiecesAgree(text: string, width: nat, contWidth: nat)
    requires width >= 4 && contWidth >= 4
    requires WrapPieces(text, width, contWidth).Some?
    ensures WrapPieces(text, width, contWidth).value == FixedPieces(text, width, contWidth)
    decreases |text|
  {
    if text != [] {
      BreakPointAgrees(text, width);
      var k := BreakPoint(text, width);
      PiecesAgree(TrimStart(text[k..]), contWidth, contWidth);
    }
  }

  /** Concatenation of the pieces. */
  function Concat(ps: seq<string>): string
  {
    if ps == [] then [] else ps[0] + Concat(ps[1..])
  }

  /** Every piece fits its width and carries something; a non-empty text gives at least one piece. */
  lemma {:induction false} PiecesFit(text: string, width: nat, contWidth: nat)
    requires width >= 4 && contWidth >= 4
    ensures var ps := FixedPieces(text, width, contWidth);
      (text != [] <==> ps != []) &&
      forall i :: 0 <= i < |ps| ==> ps[i] != [] && ByteLen(ps[i]) <= (if i == 0 then width else contWidth)
    decreases |text|
  {
    if text != [] {
      var k := BreakPoint(text, width);
      var rest := TrimStart(text[k..]);
      PiecesFit(rest, contWidth, contWidth);
      var ps := FixedPieces(text, width, contWidth);
      assert ps == [text[..k]] + FixedPieces(rest, contWidth, contWidth);
    }
  }

  /** Cutting drops only whitespace: the visible characters come back in order. */
  lemma {:induction false} PiecesKeepText(text: string, width: nat, contWidth: nat)
    requires width >= 4 && contWidth >= 4
    ensures NonWhitespace(Concat(FixedPieces(text, width, contWidth))) == NonWhitespace(text)
    decreases |text|
  {
    if text != [] {
      var k := BreakPoint(text, width);
      var rest := TrimStart(text[k..]);
      var qs := FixedPieces(rest, contWidth, contWidth);
      FixedPiecesCons(text, width, contWidth);
      ConcatCons(text[..k], qs);
      PiecesKeepText(rest, contWidth, contWidth);
      VisibleAfterCut(text, k, Concat(qs));
    }
  }

  lemma FixedPiecesCons(text: string, width: nat, contWidth: nat)
    requires width >= 4 && contWidth >= 4 && text != []
    ensures var k := BreakPoint(text, width);
      FixedPieces(text, width, contWidth) == [text[..k]] + FixedPieces(TrimStart(text[k..]), contWidth, contWidth)
  {
  }

  lemma ConcatCons(head: string, qs: seq<string>)
    ensures Concat([head] + qs) == head + Concat(qs)
  {
    assert ([head] + qs)[0] == head && ([head] + qs)[1..] == qs;
  }

  /** Replacing what follows a cut by text with the same visible characters as its trimmed form. */
  lemma VisibleAfterCut(text: string, k: nat, c: string)
    requires k <= |text| && NonWhitespace(c) == NonWhitespace(TrimStart(text[k..]))
    ensures NonWhitespace(text[..k] + c) == NonWhitespace(text)
  {
    var head, tail := text[..k], text[k..];
    assert NonWhitespace(head + c) == NonWhitespace(head) + NonWhitespace(c) by {
      NonWhitespaceAppend(head, c);
    }
    assert NonWhitespace(c) == NonWhitespace(tail) by {
      NonWhitespaceTrimStart(tail);
    }
    assert NonWhitespace(text) == NonWhitespace(head) + NonWhitespace(tail) by {
      assert text == head + tail;
      NonWhitespaceAppend(head, tail);
    }
  }

  /** The output lines: the prefix before the first piece, the indent before the others. */
  function Decorate(prefix: string, ps: seq<string>): (ls: seq<string>)
    ensures |ls| == |ps|
  {
    seq(|ps|, i requires 0 <= i < |ps| => if i == 0 then prefix + ps[i] else CONTINUATION_INDENT + ps[i])
  }

  /** The width left for the first piece after the prefix (saturating). */
  function FirstWidth(prefix: string): nat
  {
    if ByteLen(prefix) >= MAX_LINE_WIDTH then 0 else MAX_LINE_WIDTH - ByteLen(prefix)
  }

  /** What `wrap_line` makes of a long line once the prefix is split off. */
  function WrapContent(line: string, prefix: string, content: string): Option<seq<string>>
    requires ByteLen(prefix) <= 11
  {
    match WrapPieces(content, FirstWidth(prefix), MAX_LINE_WIDTH - |CONTINUATION_INDENT|)
    case None => None
    case Some(ps) => if ps == [] then Some([line]) else Some(Decorate(prefix, ps))
  }

  /** `wrap_line` as a function of the line; None where the source panics. */
  function WrapLineSpec(line: string): Option<seq<string>>
  {
    if ByteLen(line) <= MAX_LINE_WIDTH then Some([line])
    else
      var split := ExtractPrefix(line, PREFIXES);
      ExtractedPrefixShort(line);
      WrapContent(line, split.0, split.1)
  }

  /** A line that fits is returned unchanged and alone. */
  lemma ShortLineUnchanged(line: string)
    requires ByteLen(line) <= MAX_LINE_WIDTH
    ensures WrapLineSpec(line) == Some([line])
  {
  }

  /** Decorated pieces that fit their widths make lines of at most 100 bytes. */
  lemma DecoratedFit(prefix: string, ps: seq<string>)
    requires ByteLen(prefix) <= 11
    requires forall i :: 0 <= i < |ps| ==> ByteLen(ps[i]) <= (if i == 0 then FirstWidth(prefix) else 98)
    ensures forall i :: 0 <= i < |ps| ==> ByteLen(Decorate(prefix, ps)[i]) <= MAX_LINE_WIDTH
  {
    ByteLenAscii(CONTINUATION_INDENT);
    forall i | 0 <= i < |ps|
      ensures ByteLen(Decorate(prefix, ps)[i]) <= MAX_LINE_WIDTH
    {
      if i == 0 {
        ByteLenAppend(prefix, ps[0]);
      } else {
        ByteLenAppend(CONTINUATION_INDENT, ps[i]);
      }
    }
  }

  /** The first decorated line starts with the prefix, the others with the indent. */
  lemma DecoratedStarts(prefix: string, ps: seq<string>)
    requires ps != []
    ensures StartsWith(Decorate(prefix, ps)[0], prefix)
    ensures forall i :: 1 <= i < |ps| ==> StartsWith(Decorate(prefix, ps)[i], CONTINUATION_INDENT)
  {
    var ls := Decorate(prefix, ps);
    assert ls[0][..|prefix|] == prefix;
    forall i | 1 <= i < |ls|
      ensures StartsWith(ls[i], CONTINUATION_INDENT)
    {
      assert ls[i][..2] == CONTINUATION_INDENT;
    }
  }

  /** The intended `wrap_line` once the prefix is split off. */
  function FixedContent(line: string, prefix: string, content: string): seq<string>
    requires ByteLen(prefix) <= 11
  {
    var ps := FixedPieces(content, FirstWidth(prefix), MAX_LINE_WIDTH - |CONTINUATION_INDENT|);
    if ps == [] then [line] else Decorate(prefix, ps)
  }

  /** The intended `wrap_line`: the same cuts, never off a character boundary. */
  function WrapLineFixed(line: string): seq<string>
  {
    if ByteLen(line) <= MAX_LINE_WIDTH then [line]
    else
      var split := ExtractPrefix(line, PREFIXES);
      ExtractedPrefixShort(line);
      FixedContent(line, split.0, split.1)
  }

  /** Wherever the source's `wrap_line` does not panic, it returns the intended lines. */
  lemma WrapLineAgrees(line: string)
    requires WrapLineSpec(line).Some?
    ensures WrapLineSpec(line).value == WrapLineFixed(line)
  {
    if ByteLen(line) > MAX_LINE_WIDTH {
      var split := ExtractPrefix(line, PREFIXES);
      ExtractedPrefixShort(line);
      PiecesAgree(split.1, FirstWidth(split.0), 98);
    }
  }

  /** The shape of the lines cut from a non-empty content. */
  lemma FixedContentShape(line: string, prefix: string, content: string)
    requires ByteLen(prefix) <= 11 && content != []
    ensures var ls := FixedContent(line, prefix, content);
      ls != [] && StartsWith(ls[0], prefix) &&
      (forall i :: 1 <= i < |ls| ==> StartsWith(ls[i], CONTINUATION_INDENT)) &&
      (forall i :: 0 <= i < |ls| ==> ByteLen(ls[i]) <= MAX_LINE_WIDTH) &&
      exists ps :: Decorate(prefix, ps) == ls && NonWhitespace(Concat(ps)) == NonWhitespace(content)
  {
    var w := FirstWidth(prefix);
    var ps := FixedPieces(content, w, 98);
    PiecesFit(content, w, 98);
    PiecesKeepText(content, w, 98);
    assert FixedContent(line, prefix, content) == Decorate(prefix, ps);
    DecoratedFit(prefix, ps);
    DecoratedStarts(prefix, ps);
  }

  /**
   * Every line takes at most 100 bytes; a long line is cut into lines
   * whose first starts with the prefix and whose others start with the
   * two-space indent, and no visible character of the content is lost or
   * reordered.
   */
  lemma WrapLineFixedShape(line: string)
    ensures var ls := WrapLineFixed(line);
      var split := ExtractPrefix(line, PREFIXES);
      ls != [] && (forall i :: 0 <= i < |ls| ==> ByteLen(ls[i]) <= MAX_LINE_WIDTH) &&
      (ByteLen(line) > MAX_LINE_WIDTH ==>
        StartsWith(ls[0], split.0) &&
        (forall i :: 1 <= i < |ls| ==> StartsWith(ls[i], CONTINUATION_INDENT)) &&
        exists ps :: Decorate(split.0, ps) == ls && NonWhitespace(Concat(ps)) == NonWhitespace(split.1))
  {
    if ByteLen(line) > MAX_LINE_WIDTH {
      var split := ExtractPrefix(line, PREFIXES);
      ExtractedPrefixShort(line);
      ByteLenAppend(split.0, split.1);
      assert split.1 != [];
      FixedContentShape(line, split.0, split.1);
    }
  }

  function Then(done: seq<string>, o: Option<seq<string>>): Option<seq<string>>
  {
    if o.Some? then Some(done + o.value) else None
  }

  lemma ThenNothingDone(o: Option<seq<string>>)
    ensures Then([], o) == o
  {
    if o.Some? {
      assert [] + o.value == o.value;
    }
  }

  /** One turn of the cutting loop, seen on the pieces. */
  lemma PiecesStep(done: seq<string>, text: string, width: nat, contWidth: nat, k: nat)
    requires width >= 4 && contWidth >= 4 && text != []
    requires FindBreakPoint(text, width) == Some(k)
    ensures Then(done, WrapPieces(text, width, contWidth))
         == Then(done + [text[..k]], WrapPieces(TrimStart(text[k..]), contWidth, contWidth))
  {
    var piece := text[..k];
    var rest := WrapPieces(TrimStart(text[k..]), contWidth, contWidth);
    assert WrapPieces(text, width, contWidth) == if rest.Some? then Some([piece] + rest.value) else None;
    if rest.Some? {
      ConcatAssoc(done, [piece], rest.value);
    }
  }

  /** Decorating one more piece adds one more line. */
  lemma DecorateSnoc(prefix: string, done: seq<string>, piece: string)
    ensures Decorate(prefix, done + [piece])
         == Decorate(prefix, done) + [if done == [] then prefix + piece else CONTINUATION_INDENT + piece]
  {
  }

  /** `wrap_line`, with the source's loop; None where the source panics. */
  method WrapLine(line: string) returns (wrapped: Option<seq<string>>)
    ensures wrapped == WrapLineSpec(line)
  {
    if ByteLen(line) <= MAX_LINE_WIDTH {
      return Some([line]);
    }
    var split := ExtractPrefix(line, PREFIXES);
    ExtractedPrefixShort(line);
    wrapped := WrapLoop(line, split.0, split.1);
  }

  /** The cutting loop of `wrap_line`. */
  method WrapLoop(line: string, prefix: string, content: string) returns (wrapped: Option<seq<string>>)
    requires ByteLen(prefix) <= 11
    ensures wrapped == WrapContent(line, prefix, content)
  {
    var firstWidth := FirstWidth(prefix);
    var continuationWidth := MAX_LINE_WIDTH - |CONTINUATION_INDENT|;
    var out: seq<string> := [];
    var done: seq<string> := [];
    var remaining := content;
    var isFirst := true;
    ThenNothingDone(WrapPieces(content, firstWidth, continuationWidth));
    while remaining != []
      invariant isFirst <==> done == []
      invariant out == Decorate(prefix, done)
      invariant WrapPieces(content, firstWidth, continuationWidth)
             == Then(done, WrapPieces(remaining, if isFirst then firstWidth else continuationWidth, continuationWidth))
      decreases |remaining|
    {
      var available := if isFirst then firstWidth else continuationWidth;
      var breakPoint := FindBreakPoint(remaining, available);
      if breakPoint.None? {
        return None;
      }
      var k := breakPoint.value;
      var piece := remaining[..k];
      PiecesStep(done, remaining, available, continuationWidth, k);
      DecorateSnoc(prefix, done, piece);
      if isFirst {
        out := out + [prefix + piece];
        isFirst := false;
      } else {
        out := out + [CONTINUATION_INDENT + piece];
      }
      done := done + [piece];
      remaining := TrimStart(remaining[k..]);
    }
    assert WrapPieces(remaining, if isFirst then firstWidth else continuationWidth, continuationWidth) == Some([]);
    assert done + [] == done;
    if out == [] {
      wrapped := Some([line]);
    } else {
      wrapped := Some(out);
    }
  }

  /** A line starting with 'a' carries none of the known prefixes. */
  lemma NoPrefixBeforeA(line: string)
    requires line != [] && line[0] == 'a'
    ensures ExtractPrefix(line, PREFIXES) == ([], line)
  {
    forall k | 0 <= k < |PREFIXES|
      ensures !StartsWith(line, PREFIXES[k])
    {
      var p := PREFIXES[k];
      assert p != [] && p[0] != 'a' by {
        assert k == 0 || k == 1 || k == 2 || k == 3 || k == 4 || k == 5 || k == 6;
      }
      if |p| <= |line| {
        assert line[..|p|][0] == 'a';
      }
    }
    var r := ExtractPrefix(line, PREFIXES);
    assert r.0 == [] && [] + r.1 == r.1;
  }

  /** No prefix of `head + [c] + tail` is 100 bytes long. */
  lemma NoBoundaryAt100(head: string, c: char, tail: string)
    requires |head| == 99 && IsAscii(head)
    requires Utf8Width(c) == 2
    ensures CharIndexAtByte(head + [c] + tail, 100).None?
    ensures ByteLen(head + [c] + tail) > MAX_LINE_WIDTH
  {
    var line := head + [c] + tail;
    ByteLenAscii(head);
    ByteLenAppend(head, [c]);
    ByteLenAppend(head + [c], tail);
    assert line[..99] == head && line[..100] == head + [c];
    forall k | 0 <= k <= |line|
      ensures ByteLen(line[..k]) != 100
    {
      if k < 99 {
        ByteLenPrefixMonotone(line, k, 99);
      } else if k > 100 {
        ByteLenPrefixMonotone(line, 100, k);
      }
    }
  }

  /**
   * A line whose 100th byte falls inside a two-byte character: the first
   * cut slices `&text[..100]` off a character boundary.
   */
  lemma WrapPanicsMidCharacter(head: string, c: char, tail: string)
    requires |head| == 99 && IsAscii(head) && head[0] == 'a'
    requires Utf8Width(c) == 2
    ensures WrapLineSpec(head + [c] + tail).None?
  {
    var line := head + [c] + tail;
    NoBoundaryAt100(head, c, tail);
    NoPrefixBeforeA(line);
    assert FirstWidth([]) == 100;
    assert FindBreakPoint(line, 100).None?;
  }
}
