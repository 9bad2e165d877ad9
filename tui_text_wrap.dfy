/**
 * Line wrapping for the terminal UI's output pane
 * (crates/orchestrator-tui/src/utils.rs). Unlike the orchestrator's
 * wrapper, widths count characters and every cut falls on a character
 * boundary, so wrapping is defined for every line.
 */
module TuiWrap {
  import opened StrUtil
  import TextWrap

  const MAX_LINE_WIDTH: nat := 100
  /** `prefixes::CLAUDE`, `USER`, `SYSTEM`, `ERROR`, then the two bare forms. */
  const PREFIXES: seq<string> := ["Claude >", ">", "System >", "Error >", "Claude:", "System:"]

  /** How many characters `find_break_point`'s scan looks at before it stops. */
  function Scanned(maxWidth: nat): nat
  {
    if maxWidth == 0 then 1 else maxWidth
  }

  /**
   * `find_break_point` as a character count: the whole text when it has at
   * most `maxWidth` characters; else just after the last space among the
   * scanned characters when that cut lies past half the width; else after
   * `maxWidth` characters.
   */
  function BreakPoint(text: string, maxWidth: nat): (k: nat)
    ensures k <= |text|
    ensures |text| <= maxWidth ==> k == |text|
    ensures maxWidth >= 1 ==> k <= maxWidth
    ensures text != [] && maxWidth >= 1 ==> k >= 1
  {
    if |text| <= maxWidth then |text|
    else match LastIndexOf(text[..Scanned(maxWidth)], ' ')
      case Some(j) => if j + 1 > maxWidth / 2 then j + 1 else maxWidth
      case None => maxWidth
  }

  /**
   * On a text longer than the width, the cut falls past half the width,
   * either at the width or just after a space, with no space between the
   * cut and the width; and when some space lies past half the width, the
   * cut is just after a space.
   */
  lemma BreakPointChoice(text: string, maxWidth: nat)
    requires |text| > maxWidth >= 1
    ensures var k := BreakPoint(text, maxWidth);
      k > maxWidth / 2 && (k == maxWidth || text[k - 1] == ' ') &&
      (forall j :: k <= j < maxWidth ==> text[j] != ' ') &&
      (forall j :: maxWidth / 2 <= j < maxWidth && text[j] == ' ' ==> j < k && text[k - 1] == ' ')
  {
    var window := text[..maxWidth];
    assert forall j :: 0 <= j < maxWidth ==> window[j] == text[j];
  }

  /** `find_break_point`, with the source's scan over the characters. */
  method FindBreakPoint(text: string, maxWidth: nat) returns (k: nat)
    ensures k == BreakPoint(text, maxWidth)
  {
    var charCount := 0;
    var fallbackEnd := 0;
    var lastSpace: Option<nat> := None;
    var i := 0;
    while i < |text|
      invariant i <= |text| && i <= Scanned(maxWidth)
      invariant charCount == i
      invariant fallbackEnd == if i <= maxWidth then i else maxWidth
      invariant lastSpace == LastIndexOf(text[..i], ' ')
      invariant i >= 1 ==> i < maxWidth
    {
      charCount := charCount + 1;
      if charCount <= maxWidth {
        fallbackEnd := i + 1;
      }
      if text[i] == ' ' {
        lastSpace := Some(i);
      }
      assert text[..i + 1][..i] == text[..i];
      i := i + 1;
      if charCount >= maxWidth {
        break;
      }
    }
    if |text| <= maxWidth {
      return |text|;
    }
    var half := maxWidth / 2;
    if lastSpace.Some? && lastSpace.value + 1 > half {
      return lastSpace.value + 1;
    }
    k := fallbackEnd;
  }

  /** The pieces `wrap_line`'s loop cuts: the first within `width` characters, the others within `contWidth`. */
  function WrapPieces(text: string, width: nat, contWidth: nat): seq<string>
    requires width >= 1 && contWidth >= 1
    decreases |text|
  {
    if text == [] then []
    else
      var k := BreakPoint(text, width);
      [text[..k]] + WrapPieces(TrimStart(text[k..]), contWidth, contWidth)
  }

  /** Every piece carries something; the first fits `width` characters, the others `contWidth`. */
  predicate PiecesWithin(ps: seq<string>, width: nat, contWidth: nat)
  {
    forall i :: 0 <= i < |ps| ==> ps[i] != [] && |ps[i]| <= (if i == 0 then width else contWidth)
  }

  /** Every piece fits its width and carries something; a non-empty text gives at least one piece. */
  lemma {:induction false} PiecesFit(text: string, width: nat, contWidth: nat)
    requires width >= 1 && contWidth >= 1
    ensures var ps := WrapPieces(text, width, contWidth); (text != [] <==> ps != []) && PiecesWithin(ps, width, contWidth)
    decreases |text|
  {
    if text != [] {
      var k := BreakPoint(text, width);
      var rest := TrimStart(text[k..]);
      PiecesFit(rest, contWidth, contWidth);
      assert WrapPieces(text, width, contWidth) == [text[..k]] + WrapPieces(rest, contWidth, contWidth);
    }
  }

  /** Cutting drops only whitespace: the visible characters come back in order. */
  lemma {:induction false} PiecesKeepText(text: string, width: nat, contWidth: nat)
    requires width >= 1 && contWidth >= 1
    ensures NonWhitespace(TextWrap.Concat(WrapPieces(text, width, contWidth))) == NonWhitespace(text)
    decreases |text|
  {
    if text != [] {
      var k := BreakPoint(text, width);
      var rest := TrimStart(text[k..]);
      PiecesKeepText(rest, contWidth, contWidth);
      var ps := WrapPieces(text, width, contWidth);
      assert ps[0] == text[..k] && ps[1..] == WrapPieces(rest, contWidth, contWidth);
      assert TextWrap.Concat(ps) == text[..k] + TextWrap.Concat(ps[1..]);
      TextWrap.VisibleAfterCut(text, k, TextWrap.Concat(ps[1..]));
    }
  }

  /** Every prefix is at most eight characters long. */
  lemma PrefixesShort()
    ensures forall k :: 0 <= k < |PREFIXES| ==> |PREFIXES[k]| <= 8
  {
  }

  /** The extracted prefix takes at most nine characters. */
  lemma ExtractedPrefixShort(line: string)
    ensures |TextWrap.ExtractPrefix(line, PREFIXES).0| <= 9
  {
    PrefixesShort();
  }

  /** What `wrap_line` makes of a long line once the prefix is split off. */
  function WrapContent(line: string, prefix: string, content: string): seq<string>
    requires |prefix| <= 9
  {
    var ps := WrapPieces(content, MAX_LINE_WIDTH - |prefix|, MAX_LINE_WIDTH - |TextWrap.CONTINUATION_INDENT|);
    if ps == [] then [line] else TextWrap.Decorate(prefix, ps)
  }

  /** `wrap_line` as a function of the line. */
  function WrapLineSpec(line: string): seq<string>
  {
    if |line| <= MAX_LINE_WIDTH then [line]
    else
      var split := TextWrap.ExtractPrefix(line, PREFIXES);
      ExtractedPrefixShort(line);
      WrapContent(line, split.0, split.1)
  }

  /**
   * Lines of at most 100 characters, at least one, the first starting with
   * the prefix and the others with the two-space indent.
   */
  predicate CutShape(ls: seq<string>, prefix: string)
  {
    ls != [] && StartsWith(ls[0], prefix) &&
    (forall i :: 1 <= i < |ls| ==> StartsWith(ls[i], TextWrap.CONTINUATION_INDENT)) &&
    (forall i :: 0 <= i < |ls| ==> |ls[i]| <= MAX_LINE_WIDTH)
  }

  /** The shape of the lines cut from a non-empty content. */
  lemma WrapContentShape(line: string, prefix: string, content: string)
    requires |prefix| <= 9 && content != []
    ensures CutShape(WrapContent(line, prefix, content), prefix)
    ensures exists ps :: TextWrap.Decorate(prefix, ps) == WrapContent(line, prefix, content)
                         && NonWhitespace(TextWrap.Concat(ps)) == NonWhitespace(content)
  {
    var w := MAX_LINE_WIDTH - |prefix|;
    var ps := WrapPieces(content, w, 98);
    var ls := WrapContent(line, prefix, content);
    WrapContentOfPieces(line, prefix, content);
    PiecesFit(content, w, 98);
    DecoratedCutShape(prefix, ps, ls);
    PiecesKeepText(content, w, 98);
  }

  /** Pieces that fit their widths, decorated, have the shape of cut lines. */
  lemma DecoratedCutShape(prefix: string, ps: seq<string>, ls: seq<string>)
    requires |prefix| <= 9 && ps != [] && ls == TextWrap.Decorate(prefix, ps)
    requires PiecesWithin(ps, MAX_LINE_WIDTH - |prefix|, 98)
    ensures CutShape(ls, prefix)
  {
    TextWrap.DecoratedStarts(prefix, ps);
    DecoratedFit(prefix, ps);
  }

  /** A non-empty content gives its decorated pieces. */
  lemma WrapContentOfPieces(line: string, prefix: string, content: string)
    requires |prefix| <= 9 && content != []
    ensures WrapContent(line, prefix, content) == TextWrap.Decorate(prefix, WrapPieces(content, MAX_LINE_WIDTH - |prefix|, 98))
  {
    assert |TextWrap.CONTINUATION_INDENT| == 2;
    PiecesFit(content, MAX_LINE_WIDTH - |prefix|, 98);
  }

  /** Decorated pieces that fit their widths make lines of at most 100 characters. */
  lemma DecoratedFit(prefix: string, ps: seq<string>)
    requires |prefix| <= 9
    requires PiecesWithin(ps, MAX_LINE_WIDTH - |prefix|, 98)
    ensures forall i :: 0 <= i < |ps| ==> |TextWrap.Decorate(prefix, ps)[i]| <= MAX_LINE_WIDTH
  {
  }

  /**
   * Every line has at most 100 characters; a long line is cut into lines
   * whose first starts with the prefix and whose others start with the
   * two-space indent, and no visible character of the content is lost or
   * reordered.
   */
  lemma WrapLineShape(line: string)
    ensures var ls := WrapLineSpec(line);
      var split := TextWrap.ExtractPrefix(line, PREFIXES);
      ls != [] && (forall i :: 0 <= i < |ls| ==> |ls[i]| <= MAX_LINE_WIDTH) &&
      (|line| > MAX_LINE_WIDTH ==>
        StartsWith(ls[0], split.0) &&
        (forall i :: 1 <= i < |ls| ==> StartsWith(ls[i], TextWrap.CONTINUATION_INDENT)) &&
        exists ps :: TextWrap.Decorate(split.0, ps) == ls && NonWhitespace(TextWrap.Concat(ps)) == NonWhitespace(split.1))
  {
    if |line| > MAX_LINE_WIDTH {
      var split := TextWrap.ExtractPrefix(line, PREFIXES);
      ExtractedPrefixShort(line);
      assert split.1 != [];
      WrapContentShape(line, split.0, split.1);
    }
  }

  /** One turn of the cutting loop, seen on the pieces. */
  lemma PiecesStep(done: seq<string>, text: string, width: nat, contWidth: nat)
    requires width >= 1 && contWidth >= 1 && text != []
    ensures var k := BreakPoint(text, width);
      done + WrapPieces(text, width, contWidth)
      == done + [text[..k]] + WrapPieces(TrimStart(text[k..]), contWidth, contWidth)
  {
    var k := BreakPoint(text, width);
    var piece := text[..k];
    var rest := WrapPieces(TrimStart(text[k..]), contWidth, contWidth);
    assert WrapPieces(text, width, contWidth) == [piece] + rest;
    ConcatAssoc(done, [piece], rest);
  }

  /** `wrap_line`, with the source's loop. */
  method WrapLine(line: string) returns (wrapped: seq<string>)
    ensures wrapped == WrapLineSpec(line)
  {
    if |line| <= MAX_LINE_WIDTH {
      return [line];
    }
    var split := TextWrap.ExtractPrefix(line, PREFIXES);
    ExtractedPrefixShort(line);
    wrapped := WrapLoop(line, split.0, split.1);
  }

  /** The cutting loop of `wrap_line`. */
  method WrapLoop(line: string, prefix: string, content: string) returns (wrapped: seq<string>)
    requires |prefix| <= 9
    ensures wrapped == WrapContent(line, prefix, content)
  {
    var firstWidth := MAX_LINE_WIDTH - |prefix|;
    var continuationWidth := MAX_LINE_WIDTH - |TextWrap.CONTINUATION_INDENT|;
    var out: seq<string> := [];
    var done: seq<string> := [];
    var remaining := content;
    var isFirst := true;
    assert [] + WrapPieces(content, firstWidth, continuationWidth) == WrapPieces(content, firstWidth, continuationWidth);
    while remaining != []
      invariant isFirst <==> done == []
      invariant out == TextWrap.Decorate(prefix, done)
      invariant WrapPieces(content, firstWidth, continuationWidth)
             == done + WrapPieces(remaining, if isFirst then firstWidth else continuationWidth, continuationWidth)
      decreases |remaining|
    {
      var available := if isFirst then firstWidth else continuationWidth;
      var k := FindBreakPoint(remaining, available);
      var piece := remaining[..k];
      PiecesStep(done, remaining, available, continuationWidth);
      TextWrap.DecorateSnoc(prefix, done, piece);
      if isFirst {
        out := out + [prefix + piece];
        isFirst := false;
      } else {
        out := out + [TextWrap.CONTINUATION_INDENT + piece];
      }
      done := done + [piece];
      remaining := TrimStart(remaining[k..]);
    }
    assert done + [] == done;
    if out == [] {
      wrapped := [line];
    } else {
      wrapped := out;
    }
  }
}
