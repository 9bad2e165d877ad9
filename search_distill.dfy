/**
 * The pure parts of the search-and-distill shell (search-distill/src/main.rs):
 * the interactive query history, the text read aloud to the user, and how
 * each search result's snippet is chosen and shaped for the prompt. The
 * HTTP calls (search, page fetches, summarising model) are not part of
 * this model.
 */
module SearchDistill {
  import opened StrUtil
  import BoundedQueue

  // ---------------------------------------------------------------------------
  // Query history
  // ---------------------------------------------------------------------------

  /** `QueryHistory::add` on the entries: a repeat of the newest entry is dropped, else a bounded push. */
  function AddQuery(entries: seq<string>, query: string, max: nat): (r: seq<string>)
    ensures |entries| <= BoundedQueue.Cap(max) ==> |r| <= BoundedQueue.Cap(max)
    ensures r != [] && r[|r| - 1] == query
  {
    if entries != [] && entries[|entries| - 1] == query then entries
    else BoundedQueue.PushBounded(entries, query, max)
  }

  /** No two neighbouring entries are equal. */
  predicate NoRepeats(entries: seq<string>)
  {
    forall i :: 0 < i < |entries| ==> entries[i - 1] != entries[i]
  }

  /** Adding keeps neighbouring entries distinct, and re-adding the newest query changes nothing. */
  lemma AddKeepsNoRepeats(entries: seq<string>, query: string, max: nat)
    requires NoRepeats(entries)
    ensures NoRepeats(AddQuery(entries, query, max))
    ensures entries != [] && entries[|entries| - 1] == query ==> AddQuery(entries, query, max) == entries
  {
    var r := AddQuery(entries, query, max);
    if !(entries != [] && entries[|entries| - 1] == query) {
      var kept := if |entries| >= max && entries != [] then entries[1..] else entries;
      assert r == kept + [query];
      forall i | 0 < i < |r|
        ensures r[i - 1] != r[i]
      {
        if i < |kept| {
          if kept != entries {
            assert r[i - 1] == entries[i] && r[i] == entries[i + 1];
          }
        } else {
          assert r[i - 1] == entries[|entries| - 1];
        }
      }
    }
  }

  class QueryHistory {
    var entries: seq<string>
    const maxSize: nat

    predicate Valid()
      reads this
    {
      |entries| <= BoundedQueue.Cap(maxSize) && NoRepeats(entries)
    }

    constructor (max: nat)
      ensures Valid() && entries == [] && maxSize == max
    {
      entries := [];
      maxSize := max;
    }

    method Add(query: string)
      requires Valid()
      modifies this
      ensures Valid()
      ensures entries == AddQuery(old(entries), query, maxSize)
    {
      AddKeepsNoRepeats(entries, query, maxSize);
      if entries != [] && entries[|entries| - 1] == query {
        return;
      }
      if |entries| >= maxSize && entries != [] {
        entries := entries[1..];
      }
      entries := entries + [query];
    }

    /** The newest query. */
    function GetLast(): (r: Option<string>)
      reads this
      ensures r.None? <==> entries == []
      ensures r.Some? ==> r.value == entries[|entries| - 1]
    {
      if entries == [] then None else Some(entries[|entries| - 1])
    }

    /** The queries in the order they were added. */
    function List(): (r: seq<string>)
      reads this
      ensures Valid() ==> |r| <= BoundedQueue.Cap(maxSize) && NoRepeats(r)
      ensures GetLast().Some? ==> r != [] && r[|r| - 1] == GetLast().value
    {
      entries
    }
  }

  // ---------------------------------------------------------------------------
  // Voice summary
  // ---------------------------------------------------------------------------

  /** `get_voice_summary`: strip "##", "**", "*" and "#", in that order, then trim. */
  function VoiceSummary(summary: string): string
  {
    Trim(Replace(Replace(Replace(Replace(summary, "##", ""), "**", ""), "*", ""), "#", ""))
  }

  /** Trimming keeps a contiguous run of the characters. */
  lemma TrimIsInfix(s: string)
    ensures exists i, j :: 0 <= i <= j <= |s| && Trim(s) == s[i..j]
  {
    var t := TrimStart(s);
    var i := |s| - |t|;
    var r := TrimEnd(t);
    assert Trim(s) == s[i..][..|r|] == s[i..i + |r|];
  }

  /** Removing the doubled markers, then the single ones, is removing the single ones. */
  lemma StripMarkers(s: string, x: char, y: char)
    ensures Replace(Replace(Replace(Replace(s, [y, y], []), [x, x], []), [x], []), [y], [])
         == Remove(Remove(s, x), y)
  {
    var a := Replace(s, [y, y], []);
    var b := Replace(a, [x, x], []);
    ReplaceCharByNothing(b, x);
    RemoveAfterReplacePair(a, x);
    ReplaceCharByNothing(Remove(a, x), y);
    RemoveCommutes(a, x, y);
    RemoveAfterReplacePair(s, y);
    RemoveCommutes(s, x, y);
  }

  /** Trimming adds no character. */
  lemma TrimKeepsOut(s: string, c: char)
    requires c !in s
    ensures c !in Trim(s)
  {
    TrimSubstring(s);
  }

  /**
   * The voice summary is the summary with every '*' and '#' removed,
   * trimmed: the doubled markers are only removed earlier. So no '#' or
   * '*' is left, and the text is trimmed.
   */
  lemma VoiceSummaryStripsMarkup(summary: string)
    ensures VoiceSummary(summary) == Trim(Remove(Remove(summary, '*'), '#'))
    ensures '#' !in VoiceSummary(summary) && '*' !in VoiceSummary(summary)
    ensures Trim(VoiceSummary(summary)) == VoiceSummary(summary)
  {
    StripMarkers(summary, '*', '#');
    var cleaned := Remove(Remove(summary, '*'), '#');
    TrimKeepsOut(cleaned, '#');
    TrimKeepsOut(cleaned, '*');
    TrimIdempotent(cleaned);
  }

  // ---------------------------------------------------------------------------
  // Snippets in the prompt
  // ---------------------------------------------------------------------------

  datatype BraveResult = BraveResult(title: string, url: string, description: Option<string>)

  datatype FetchedPage = FetchedPage(url: string, content: Option<string>)

  const SNIPPET_CHARS: nat := 1500
  const SNIPPET_LINES: nat := 20
  const NO_CONTENT := "No content available"

  /** The first page fetched from `url`, if any. */
  function FindPage(pages: seq<FetchedPage>, url: string): (r: Option<FetchedPage>)
    ensures r.Some? ==> r.value in pages && r.value.url == url
    ensures r.None? ==> forall p :: p in pages ==> p.url != url
    decreases |pages|
  {
    if pages == [] then None
    else if pages[0].url == url then Some(pages[0])
    else FindPage(pages[1..], url)
  }

  /**
   * The raw snippet for one result: the content of the first page fetched
   * from its url; failing that, its search description; failing that, a
   * fixed notice.
   */
  function SnippetSource(pages: seq<FetchedPage>, result: BraveResult): (s: string)
    ensures FindPage(pages, result.url).Some? && FindPage(pages, result.url).value.content.Some? ==>
      s == FindPage(pages, result.url).value.content.value
    ensures (FindPage(pages, result.url).None? || FindPage(pages, result.url).value.content.None?) ==>
      s == if result.description.Some? then result.description.value else NO_CONTENT
  {
    var page := FindPage(pages, result.url);
    if page.Some? && page.value.content.Some? then page.value.content.value
    else if result.description.Some? then result.description.value
    else NO_CONTENT
  }

  /** The first `n` characters (`chars().take(n)`). */
  function TakeChars(s: string, n: nat): (r: string)
    ensures |r| <= n && |r| <= |s| && r == s[..|r|]
  {
    if |s| <= n then s else s[..n]
  }

  /** Trim each line, drop the empty ones, keep at most `n`. */
  function CleanLines(lines: seq<string>, n: nat): (r: seq<string>)
    ensures |r| <= n
    ensures forall i :: 0 <= i < |r| ==> r[i] != [] && Trim(r[i]) == r[i]
    decreases |lines|
  {
    if lines == [] || n == 0 then []
    else
      var t := Trim(lines[0]);
      if t == [] then CleanLines(lines[1..], n)
      else
        var rest := CleanLines(lines[1..], n - 1);
        TrimIdempotent(lines[0]);
        TrimmedCons(t, rest);
        [t] + rest
  }

  /** A trimmed non-empty line before trimmed non-empty lines. */
  lemma TrimmedCons(t: string, rest: seq<string>)
    requires t != [] && Trim(t) == t
    requires forall i :: 0 <= i < |rest| ==> rest[i] != [] && Trim(rest[i]) == rest[i]
    ensures forall i :: 0 <= i < |[t] + rest| ==> ([t] + rest)[i] != [] && Trim(([t] + rest)[i]) == ([t] + rest)[i]
  {
    forall i | 0 <= i < |[t] + rest| ensures ([t] + rest)[i] != [] && Trim(([t] + rest)[i]) == ([t] + rest)[i] {
      if i > 0 { assert ([t] + rest)[i] == rest[i - 1]; }
    }
  }

  /** The text a snippet contributes to the prompt. */
  function CleanSnippet(snippet: string): string
  {
    Join(CleanLines(Lines(TakeChars(snippet, SNIPPET_CHARS)), SNIPPET_LINES), " ")
  }

  /** The length of a join with one more part in front. */
  lemma JoinCons(t: string, rest: seq<string>)
    ensures |Join([t] + rest, " ")| == if rest == [] then |t| else |t| + 1 + |Join(rest, " ")|
  {
    if rest != [] {
      assert ([t] + rest)[1..] == rest;
    }
  }

  /** Joining lines that are each no longer, and no more numerous, gives nothing longer. */
  lemma {:induction false} CleanLinesNoLonger(lines: seq<string>, n: nat)
    ensures |Join(CleanLines(lines, n), " ")| <= |Join(lines, " ")|
    decreases |lines|
  {
    if lines != [] && n > 0 {
      var t := Trim(lines[0]);
      var m := if t == [] then n else n - 1;
      var rest := CleanLines(lines[1..], m);
      CleanLinesNoLonger(lines[1..], m);
      JoinCons(lines[0], lines[1..]);
      assert lines == [lines[0]] + lines[1..];
      if t != [] {
        assert CleanLines(lines, n) == [t] + rest;
        JoinCons(t, rest);
      } else {
        assert CleanLines(lines, n) == rest;
      }
    }
  }

  /** Splitting into lines and joining with spaces never lengthens the text. */
  lemma {:induction false} LinesJoinNoLonger(s: string)
    ensures |Join(Lines(s), " ")| <= |s|
    decreases |s|
  {
    if s != [] {
      match IndexOf(s, '\n')
      case None =>
      case Some(k) =>
        var head, tail := StripCr(s[..k]), s[k + 1..];
        assert Lines(s) == [head] + Lines(tail);
        LinesJoinNoLonger(tail);
        JoinCons(head, Lines(tail));
    }
  }

  /**
   * A snippet is built from at most the first 1500 characters, as at most
   * 20 non-empty trimmed lines joined by spaces, so it is never longer
   * than 1500 characters.
   */
  lemma CleanSnippetShape(snippet: string)
    ensures var ls := CleanLines(Lines(TakeChars(snippet, SNIPPET_CHARS)), SNIPPET_LINES);
      CleanSnippet(snippet) == Join(ls, " ") && |ls| <= SNIPPET_LINES &&
      (forall i :: 0 <= i < |ls| ==> ls[i] != [] && Trim(ls[i]) == ls[i])
    ensures |CleanSnippet(snippet)| <= SNIPPET_CHARS
  {
    var head := TakeChars(snippet, SNIPPET_CHARS);
    CleanLinesNoLonger(Lines(head), SNIPPET_LINES);
    LinesJoinNoLonger(head);
  }
}
