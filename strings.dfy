/**
 * String primitives shared by the model: the Rust `str` methods and the
 * Python `str` operations the core relies on, stated over `seq<char>`
 * (one element per Unicode scalar value).
 */
module StrUtil {

  datatype Option<T> = None | Some(value: T)

  /** An operation that either yields a value or fails with a message (Rust's `anyhow::Result`). */
  datatype Result<T> = Ok(value: T) | Err(error: string)

  // ---------------------------------------------------------------------------
  // Unicode White_Space (what Rust's `char::is_whitespace` and `str::trim` use)
  // ---------------------------------------------------------------------------

  predicate IsWhitespace(c: char)
  {
    var n := c as int;
    (0x09 <= n <= 0x0D) || n == 0x20 || n == 0x85 || n == 0xA0 || n == 0x1680 ||
    (0x2000 <= n <= 0x200A) || n == 0x2028 || n == 0x2029 || n == 0x202F ||
    n == 0x205F || n == 0x3000
  }

  predicate AllWhitespace(s: string)
  {
    forall i :: 0 <= i < |s| ==> IsWhitespace(s[i])
  }

  /** Rust `str::trim_start`: the suffix left after dropping leading whitespace. */
  function TrimStart(s: string): (r: string)
    ensures |r| <= |s| && r == s[|s| - |r|..]
    ensures r == [] || !IsWhitespace(r[0])
    ensures AllWhitespace(s[..|s| - |r|])
  {
    if |s| > 0 && IsWhitespace(s[0]) then
      var r := TrimStart(s[1..]);
      WhitespaceHead(s, |r|);
      r
    else s
  }

  /** A whitespace character before a whitespace run extends the run. */
  lemma WhitespaceHead(s: string, m: nat)
    requires 0 < |s| && m < |s| && IsWhitespace(s[0]) && AllWhitespace(s[1..][..|s| - 1 - m])
    ensures s[1..][|s| - 1 - m..] == s[|s| - m..] && AllWhitespace(s[..|s| - m])
  {
    var t, u := s[..|s| - m], s[1..][..|s| - 1 - m];
    forall i | 0 <= i < |t| ensures IsWhitespace(t[i]) {
      if i > 0 { assert t[i] == u[i - 1]; }
    }
  }

  /** The characters of `s` that are not whitespace, in order. */
  function NonWhitespace(s: string): string
    decreases |s|
  {
    if s == [] then [] else (if IsWhitespace(s[0]) then [] else [s[0]]) + NonWhitespace(s[1..])
  }

  lemma {:induction false} NonWhitespaceAppend(a: string, b: string)
    ensures NonWhitespace(a + b) == NonWhitespace(a) + NonWhitespace(b)
    decreases |a|
  {
    if a == [] {
      assert a + b == b;
    } else {
      var ab := a + b;
      var h: string := if IsWhitespace(a[0]) then [] else [a[0]];
      assert ab[0] == a[0] && ab[1..] == a[1..] + b;
      assert NonWhitespace(ab) == h + NonWhitespace(a[1..] + b);
      NonWhitespaceAppend(a[1..], b);
      ConcatAssoc(h, NonWhitespace(a[1..]), NonWhitespace(b));
    }
  }

  lemma {:induction false} NonWhitespaceOfBlank(s: string)
    requires AllWhitespace(s)
    ensures NonWhitespace(s) == []
    decreases |s|
  {
    if s != [] {
      NonWhitespaceOfBlank(s[1..]);
    }
  }

  /** Leading whitespace carries no visible character. */
  lemma NonWhitespaceTrimStart(s: string)
    ensures NonWhitespace(TrimStart(s)) == NonWhitespace(s)
  {
    var t := TrimStart(s);
    var d := |s| - |t|;
    assert s == s[..d] + t;
    NonWhitespaceAppend(s[..d], t);
    NonWhitespaceOfBlank(s[..d]);
  }

  /** Rust `str::trim_end`: the prefix left after dropping trailing whitespace. */
  function TrimEnd(s: string): (r: string)
    ensures |r| <= |s| && r == s[..|r|]
    ensures r == [] || !IsWhitespace(r[|r| - 1])
    ensures AllWhitespace(s[|r|..])
  {
    if |s| > 0 && IsWhitespace(s[|s| - 1]) then
      var r := TrimEnd(s[..|s| - 1]);
      WhitespaceTail(s, |r|);
      r
    else s
  }

  /** A whitespace run before a final whitespace character extends the run. */
  lemma WhitespaceTail(s: string, m: nat)
    requires 0 < |s| && m < |s| && IsWhitespace(s[|s| - 1]) && AllWhitespace(s[..|s| - 1][m..])
    ensures s[..|s| - 1][..m] == s[..m] && AllWhitespace(s[m..])
  {
    var t, u := s[m..], s[..|s| - 1][m..];
    forall i | 0 <= i < |t| ensures IsWhitespace(t[i]) {
      if i < |u| { assert t[i] == u[i]; }
    }
  }

  /** Rust `str::trim`. */
  function Trim(s: string): (r: string)
    ensures |r| <= |s|
    ensures r == [] || (!IsWhitespace(r[0]) && !IsWhitespace(r[|r| - 1]))
  {
    TrimEnd(TrimStart(s))
  }

  lemma TrimStartOfNonWhitespace(s: string)
    requires s == [] || !IsWhitespace(s[0])
    ensures TrimStart(s) == s
  {
  }

  lemma TrimEndOfNonWhitespace(s: string)
    requires s == [] || !IsWhitespace(s[|s| - 1])
    ensures TrimEnd(s) == s
  {
  }

  /** A string without whitespace at either end is its own trim. */
  lemma TrimPlain(s: string)
    requires s == [] || (!IsWhitespace(s[0]) && !IsWhitespace(s[|s| - 1]))
    ensures Trim(s) == s
  {
    TrimStartOfNonWhitespace(s);
    TrimEndOfNonWhitespace(s);
  }

  /** One space before or after a plain string is trimmed away. */
  lemma TrimPadded(t: string)
    requires t != [] && !IsWhitespace(t[0]) && !IsWhitespace(t[|t| - 1])
    ensures Trim([' '] + t) == t && Trim(t + [' ']) == t
  {
    assert ([' '] + t)[1..] == t;
    TrimPlain(t);
    TrimStartOfNonWhitespace(t + [' ']);
    assert (t + [' '])[..|t|] == t;
  }

  /** A trimmed string is a substring, so it has no character the original lacks. */
  lemma TrimSubstring(s: string)
    ensures forall c :: c in Trim(s) ==> c in s
  {
    var t := Trim(s);
    var ts := TrimStart(s);
    assert ts == s[|s| - |ts|..];
    assert t == ts[..|t|];
    forall c | c in t
      ensures c in s
    {
      var i :| 0 <= i < |t| && t[i] == c;
      assert ts[i] == c;
      assert s[|s| - |ts| + i] == c;
    }
  }

  /** Trimming twice is trimming once. */
  lemma TrimIdempotent(s: string)
    ensures Trim(Trim(s)) == Trim(s)
  {
    var r := Trim(s);
    TrimStartOfNonWhitespace(r);
    TrimEndOfNonWhitespace(r);
  }

  /** A string made only of whitespace trims to the empty string. */
  lemma {:induction false} TrimStartAllWhitespace(s: string)
    ensures AllWhitespace(s) <==> TrimStart(s) == []
  {
    if |s| > 0 && IsWhitespace(s[0]) {
      TrimStartAllWhitespace(s[1..]);
      if AllWhitespace(s[1..]) {
        assert forall i :: 0 <= i < |s| ==> IsWhitespace(s[i]) by {
          forall i | 0 <= i < |s| ensures IsWhitespace(s[i]) {
            if i > 0 { assert s[i] == s[1..][i - 1]; }
          }
        }
      }
    }
  }

  lemma TrimEmptyIffAllWhitespace(s: string)
    ensures Trim(s) == [] <==> AllWhitespace(s)
  {
    TrimStartAllWhitespace(s);
    var t := TrimStart(s);
    assert TrimEnd(t) == [] ==> t[|TrimEnd(t)|..] == t;
  }

  // ---------------------------------------------------------------------------
  // Prefixes, suffixes and substring search
  // ---------------------------------------------------------------------------

  predicate StartsWith(s: string, p: string)
  {
    |p| <= |s| && s[..|p|] == p
  }

  lemma StartsWithConcat(p: string, x: string)
    ensures StartsWith(p + x, p)
  {
    assert (p + x)[..|p|] == p;
  }

  predicate EndsWith(s: string, p: string)
  {
    |p| <= |s| && s[|s| - |p|..] == p
  }

  /** Concatenation is associative; a named fact spares the solver an extensionality proof. */
  lemma ConcatAssoc<T>(p: seq<T>, q: seq<T>, r: seq<T>)
    ensures (p + q) + r == p + (q + r)
  {
  }

  /** A prefix one longer is the prefix and the next element. */
  lemma PrefixSnoc<T>(s: seq<T>, i: nat)
    requires i < |s|
    ensures s[..i + 1] == s[..i] + [s[i]]
  {
  }

  /** A non-empty `b`, alone or after `a`, splits off its last element. */
  lemma SplitLast<T>(a: seq<T>, b: seq<T>)
    requires b != []
    ensures b == b[..|b| - 1] + [b[|b| - 1]]
    ensures a + b == (a + b[..|b| - 1]) + [b[|b| - 1]]
  {
  }

  lemma EndsWithAppend(a: string, t: string, p: string)
    requires EndsWith(t, p)
    ensures EndsWith(a + t, p)
  {
    assert (a + t)[|a + t| - |p|..] == t[|t| - |p|..];
  }

  /** `p` occurs in `s` starting at index `i`. */
  predicate MatchAt(s: string, p: string, i: int)
  {
    0 <= i && i + |p| <= |s| && s[i..i + |p|] == p
  }

  /** Rust `str::contains` / Python `in`. */
  predicate Contains(s: string, p: string)
  {
    exists i :: 0 <= i <= |s| && MatchAt(s, p, i)
  }

  /** Leftmost occurrence of `p` at or after index `from`. */
  function FindFrom(s: string, p: string, from: nat): (r: Option<nat>)
    requires from <= |s|
    ensures r.Some? ==> from <= r.value && MatchAt(s, p, r.value)
    ensures r.Some? ==> forall j :: from <= j < r.value ==> !MatchAt(s, p, j)
    ensures r.None? ==> forall j :: from <= j ==> !MatchAt(s, p, j)
    decreases |s| - from
  {
    if from + |p| > |s| then None
    else if s[from..from + |p|] == p then Some(from)
    else if from == |s| then None
    else FindFrom(s, p, from + 1)
  }

  /** Rust `str::find`: index of the leftmost occurrence. */
  function Find(s: string, p: string): (r: Option<nat>)
    ensures r.Some? <==> Contains(s, p)
    ensures r.Some? ==> MatchAt(s, p, r.value) && forall j :: 0 <= j < r.value ==> !MatchAt(s, p, j)
  {
    FindFrom(s, p, 0)
  }

  /** Rust `str::rfind` for a single character: index of the last `c`. */
  function LastIndexOf(s: string, c: char): (r: Option<nat>)
    ensures r.Some? ==> r.value < |s| && s[r.value] == c && forall j :: r.value < j < |s| ==> s[j] != c
    ensures r.None? ==> forall j :: 0 <= j < |s| ==> s[j] != c
  {
    if |s| == 0 then None
    else if s[|s| - 1] == c then Some(|s| - 1)
    else LastIndexOf(s[..|s| - 1], c)
  }

  /** Rust `str::find` for a single character. */
  function IndexOf(s: string, c: char): (r: Option<nat>)
    ensures r.Some? ==> r.value < |s| && s[r.value] == c && forall j :: 0 <= j < r.value ==> s[j] != c
    ensures r.None? ==> forall j :: 0 <= j < |s| ==> s[j] != c
  {
    if |s| == 0 then None
    else if s[0] == c then Some(0)
    else match IndexOf(s[1..], c)
      case None => None
      case Some(k) => Some(k + 1)
  }

  lemma ContainsAt(s: string, p: string, i: int)
    requires MatchAt(s, p, i)
    ensures Contains(s, p)
  {
  }

  lemma ContainsChar(s: string, c: char)
    ensures Contains(s, [c]) <==> c in s
  {
    if c in s {
      var i :| 0 <= i < |s| && s[i] == c;
      assert MatchAt(s, [c], i);
    }
    if Contains(s, [c]) {
      var i :| 0 <= i <= |s| && MatchAt(s, [c], i);
      assert s[i] == s[i..i + 1][0];
    }
  }

  /** An occurrence inside a prefix is an occurrence in the whole string. */
  lemma ContainsPrefix(s: string, t: string, p: string)
    requires Contains(s, p)
    ensures Contains(s + t, p)
  {
    var i :| 0 <= i <= |s| && MatchAt(s, p, i);
    assert (s + t)[i..i + |p|] == s[i..i + |p|];
    assert MatchAt(s + t, p, i);
  }

  lemma ContainsSuffix(s: string, t: string, p: string)
    requires Contains(t, p)
    ensures Contains(s + t, p)
  {
    var i :| 0 <= i <= |t| && MatchAt(t, p, i);
    assert (s + t)[|s| + i..|s| + i + |p|] == t[i..i + |p|];
    assert MatchAt(s + t, p, |s| + i);
  }

  /** Python `any(w in s for w in ws)`. */
  predicate ContainsAny(s: string, ws: seq<string>)
  {
    exists k :: 0 <= k < |ws| && Contains(s, ws[k])
  }

  /** No two-character start of `p` lines up anywhere in `s`. */
  predicate StartsNowhere(s: string, p: string)
  {
    |p| >= 2 && forall i :: 0 <= i && i + |p| <= |s| ==> s[i] != p[0] || s[i + 1] != p[1]
  }

  lemma AbsentPatterns(s: string, ws: seq<string>)
    requires forall k :: 0 <= k < |ws| ==> StartsNowhere(s, ws[k])
    ensures !ContainsAny(s, ws)
  {
    forall k | 0 <= k < |ws|
      ensures !Contains(s, ws[k])
    {
      forall i | 0 <= i <= |s|
        ensures !MatchAt(s, ws[k], i)
      {
        if i + |ws[k]| <= |s| {
          assert s[i..i + |ws[k]|][0] == s[i] && s[i..i + |ws[k]|][1] == s[i + 1];
        }
      }
    }
  }

  // ---------------------------------------------------------------------------
  // Character filtering, replacement and case
  // ---------------------------------------------------------------------------

  /** `s` with every occurrence of `c` removed. */
  function Remove(s: string, c: char): (r: string)
    ensures c !in r
    ensures forall x :: x != c ==> (x in r <==> x in s)
    ensures |r| <= |s|
  {
    if s == [] then [] else (if s[0] == c then [] else [s[0]]) + Remove(s[1..], c)
  }

  lemma {:induction false} RemoveAppend(a: string, b: string, c: char)
    ensures Remove(a + b, c) == Remove(a, c) + Remove(b, c)
    decreases |a|
  {
    if a == [] {
      assert a + b == b;
    } else {
      var h := if a[0] == c then [] else [a[0]];
      assert (a + b)[0] == a[0] && (a + b)[1..] == a[1..] + b;
      RemoveStep(a + b, c);
      RemoveStep(a, c);
      RemoveAppend(a[1..], b, c);
      ConcatAssoc(h, Remove(a[1..], c), Remove(b, c));
    }
  }

  /** The first character, unless it is `c`, then the rest with `c` removed. */
  lemma RemoveStep(s: string, c: char)
    requires s != []
    ensures Remove(s, c) == (if s[0] == c then [] else [s[0]]) + Remove(s[1..], c)
  {
  }

  lemma RemoveCommutes(s: string, c: char, d: char)
    ensures Remove(Remove(s, c), d) == Remove(Remove(s, d), c)
  {
    if s != [] {
      RemoveCommutes(s[1..], c, d);
      RemoveAppend(if s[0] == c then [] else [s[0]], Remove(s[1..], c), d);
      RemoveAppend(if s[0] == d then [] else [s[0]], Remove(s[1..], d), c);
    }
  }

  lemma RemoveAbsent(s: string, c: char)
    requires c !in s
    ensures Remove(s, c) == s
  {
  }

  /**
   * Rust `str::replace` / Python `str.replace`: every non-overlapping
   * occurrence of `from`, scanning left to right, becomes `to`.
   */
  function Replace(s: string, from: string, to: string): (r: string)
    requires |from| > 0
    ensures !Contains(s, from) ==> r == s
    decreases |s|
  {
    if |s| < |from| then s
    else if s[..|from|] == from then
      assert MatchAt(s, from, 0);
      to + Replace(s[|from|..], from, to)
    else
      var rest := Replace(s[1..], from, to);
      assert !Contains(s, from) ==> !Contains(s[1..], from) by {
        if Contains(s[1..], from) {
          var i :| 0 <= i <= |s[1..]| && MatchAt(s[1..], from, i);
          assert s[1 + i..1 + i + |from|] == s[1..][i..i + |from|];
          assert MatchAt(s, from, 1 + i);
        }
      }
      assert !Contains(s, from) ==> [s[0]] + s[1..] == s;
      [s[0]] + rest
  }

  /** Replacing a one-character pattern by nothing removes that character. */
  lemma {:induction false} ReplaceCharByNothing(s: string, c: char)
    ensures Replace(s, [c], []) == Remove(s, c)
    decreases |s|
  {
    if |s| >= 1 {
      ReplaceCharByNothing(s[1..], c);
      if s[..1] == [c] {
        assert s[0] == c;
      } else {
        assert s[0] != c by { assert s[..1] == [s[0]]; }
      }
    }
  }

  /** Removing a doubled character first changes nothing once the character is removed. */
  lemma {:induction false} RemoveAfterReplacePair(s: string, c: char)
    ensures Remove(Replace(s, [c, c], []), c) == Remove(s, c)
    decreases |s|
  {
    if |s| < 2 {
    } else if s[..2] == [c, c] {
      RemoveAfterReplacePair(s[2..], c);
      assert Replace(s, [c, c], []) == Replace(s[2..], [c, c], []);
      assert s == [c, c] + s[2..];
      RemoveAppend([c, c], s[2..], c);
      assert Remove([c, c], c) == [];
    } else {
      RemoveAfterReplacePair(s[1..], c);
      RemoveAppend([s[0]], Replace(s[1..], [c, c], []), c);
      assert s == [s[0]] + s[1..];
      RemoveAppend([s[0]], s[1..], c);
    }
  }

  /** Rust `to_ascii_lowercase` (and the ASCII part of `to_lowercase`). */
  function LowerChar(c: char): char
  {
    if 'A' <= c <= 'Z' then (c as int + 32) as char else c
  }

  function ToLower(s: string): (r: string)
    ensures |r| == |s| && forall i :: 0 <= i < |s| ==> r[i] == LowerChar(s[i])
  {
    if s == [] then [] else [LowerChar(s[0])] + ToLower(s[1..])
  }

  /** No ASCII capital letter occurs in `s`. */
  predicate NoUpper(s: string)
  {
    forall i :: 0 <= i < |s| ==> !('A' <= s[i] <= 'Z')
  }

  lemma ToLowerOfNoUpper(s: string)
    requires NoUpper(s)
    ensures ToLower(s) == s
  {
  }

  /** A lowercase pattern written anywhere is found in the lowercased text. */
  lemma ContainsLowered(a: string, p: string, b: string)
    requires NoUpper(p)
    ensures Contains(ToLower(a + p + b), p)
  {
    ToLowerOfNoUpper(p);
    ToLowerAppend(a + p, b);
    ToLowerAppend(a, p);
    var lower := ToLower(a) + p + ToLower(b);
    assert MatchAt(lower, p, |ToLower(a)|) by {
      assert lower[|ToLower(a)|..|ToLower(a)| + |p|] == p;
    }
  }

  /** Lowercasing twice is lowercasing once. */
  lemma ToLowerIdempotent(s: string)
    ensures ToLower(ToLower(s)) == ToLower(s)
  {
    assert forall i :: 0 <= i < |s| ==> LowerChar(LowerChar(s[i])) == LowerChar(s[i]);
  }

  lemma ToLowerAppend(a: string, b: string)
    ensures ToLower(a + b) == ToLower(a) + ToLower(b)
  {
  }

  // ---------------------------------------------------------------------------
  // Splitting and joining
  // ---------------------------------------------------------------------------

  /** Rust `str::split_whitespace`: the maximal non-whitespace runs. */
  function SplitWhitespace(s: string): (r: seq<string>)
    ensures forall k :: 0 <= k < |r| ==> IsWord(r[k])
    decreases |s|
  {
    var t := TrimStart(s);
    if t == [] then []
    else
      var k := FirstWhitespace(t);
      var rest := SplitWhitespace(t[k..]);
      WordsCons(t[..k], rest);
      [t[..k]] + rest
  }

  /** A word before a run of words is a run of words. */
  lemma WordsCons(w: string, rest: seq<string>)
    requires IsWord(w)
    requires forall j :: 0 <= j < |rest| ==> IsWord(rest[j])
    ensures forall j :: 0 <= j < |[w] + rest| ==> IsWord(([w] + rest)[j])
  {
    forall j | 0 <= j < |[w] + rest| ensures IsWord(([w] + rest)[j]) {
      if j > 0 { assert ([w] + rest)[j] == rest[j - 1]; }
    }
  }

  lemma SplitWhitespaceOfBlank(s: string)
    requires AllWhitespace(s)
    ensures SplitWhitespace(s) == []
  {
    TrimStartAllWhitespace(s);
  }

  /** A single word splits into itself. */
  lemma SplitWhitespaceOfWord(w: string)
    requires IsWord(w)
    ensures SplitWhitespace(w) == [w]
  {
    TrimStartOfNonWhitespace(w);
    var k := FirstWhitespace(w);
    assert k == |w|;
    assert w[..k] == w && w[k..] == [];
    SplitWhitespaceOfBlank([]);
  }

  /** A non-empty run of non-whitespace characters. */
  predicate IsWord(w: string)
  {
    w != [] && forall i :: 0 <= i < |w| ==> !IsWhitespace(w[i])
  }

  /** Index of the first whitespace character of `t`, or `|t|`. */
  function FirstWhitespace(t: string): (k: nat)
    requires t != [] && !IsWhitespace(t[0])
    ensures 1 <= k <= |t|
    ensures forall i :: 0 <= i < k ==> !IsWhitespace(t[i])
    ensures k < |t| ==> IsWhitespace(t[k])
  {
    if |t| == 1 || IsWhitespace(t[1]) then 1 else 1 + FirstWhitespace(t[1..])
  }

  /** Rust `[..].join(sep)`. */
  function Join(parts: seq<string>, sep: string): (r: string)
    ensures |parts| == 1 ==> r == parts[0]
  {
    if |parts| == 0 then []
    else if |parts| == 1 then parts[0]
    else parts[0] + sep + Join(parts[1..], sep)
  }

  /** Rust `str::lines`: split at '\n', drop one '\r' before it, no empty last line. */
  function Lines(s: string): (r: seq<string>)
    ensures s == [] <==> r == []
    ensures forall k :: 0 <= k < |r| ==> '\n' !in r[k]
    decreases |s|
  {
    if s == [] then []
    else match IndexOf(s, '\n')
      case None => [s]
      case Some(k) => [StripCr(s[..k])] + Lines(s[k + 1..])
  }

  function StripCr(line: string): (r: string)
    ensures r == line || (line == r + ['\r'])
  {
    if |line| > 0 && line[|line| - 1] == '\r' then line[..|line| - 1] else line
  }

  /** Rust `split_once(c)`: the text before and after the first `c`. */
  function SplitOnce(s: string, c: char): (r: Option<(string, string)>)
    ensures r.None? <==> c !in s
    ensures r.Some? ==> s == r.value.0 + [c] + r.value.1 && c !in r.value.0
  {
    match IndexOf(s, c)
    case None => None
    case Some(k) =>
      assert s == s[..k] + [c] + s[k + 1..];
      Some((s[..k], s[k + 1..]))
  }

  predicate AllChar(s: string, c: char)
  {
    forall i :: 0 <= i < |s| ==> s[i] == c
  }

  /** Rust `trim_start_matches(c)` for a character. */
  function TrimStartChar(s: string, c: char): (r: string)
    ensures |r| <= |s| && r == s[|s| - |r|..]
    ensures r == [] || r[0] != c
    ensures AllChar(s[..|s| - |r|], c)
  {
    if |s| > 0 && s[0] == c then
      var r := TrimStartChar(s[1..], c);
      CharHead(s, c, |r|);
      r
    else s
  }

  /** A `c` before a run of `c` extends the run. */
  lemma CharHead(s: string, c: char, m: nat)
    requires 0 < |s| && m < |s| && s[0] == c && AllChar(s[1..][..|s| - 1 - m], c)
    ensures s[1..][|s| - 1 - m..] == s[|s| - m..] && AllChar(s[..|s| - m], c)
  {
    var t, u := s[..|s| - m], s[1..][..|s| - 1 - m];
    forall i | 0 <= i < |t| ensures t[i] == c {
      if i > 0 { assert t[i] == u[i - 1]; }
    }
  }

  /** Rust `trim_end_matches(c)` for a character. */
  function TrimEndChar(s: string, c: char): (r: string)
    ensures |r| <= |s| && r == s[..|r|]
    ensures r == [] || r[|r| - 1] != c
    ensures AllChar(s[|r|..], c)
  {
    if |s| > 0 && s[|s| - 1] == c then
      var r := TrimEndChar(s[..|s| - 1], c);
      CharTail(s, c, |r|);
      r
    else s
  }

  /** A run of `c` before a final `c` extends the run. */
  lemma CharTail(s: string, c: char, m: nat)
    requires 0 < |s| && m < |s| && s[|s| - 1] == c && AllChar(s[..|s| - 1][m..], c)
    ensures s[..|s| - 1][..m] == s[..m] && AllChar(s[m..], c)
  {
    var t, u := s[m..], s[..|s| - 1][m..];
    forall i | 0 <= i < |t| ensures t[i] == c {
      if i < |u| { assert t[i] == u[i]; }
    }
  }

  /** Rust `trim_matches(c)`: strip every leading and trailing `c`. */
  function TrimMatches(s: string, c: char): (r: string)
    ensures |r| <= |s|
    ensures r == [] || (r[0] != c && r[|r| - 1] != c)
  {
    TrimEndChar(TrimStartChar(s, c), c)
  }

  /** A string that neither starts nor ends with `c` is left as it is. */
  lemma TrimMatchesUnchanged(s: string, c: char)
    requires s == [] || (s[0] != c && s[|s| - 1] != c)
    ensures TrimMatches(s, c) == s
  {
  }

  /** Surrounding copies of `c` are removed. */
  lemma TrimMatchesStrips(inner: string, c: char)
    requires inner == [] || (inner[0] != c && inner[|inner| - 1] != c)
    ensures TrimMatches([c] + inner + [c], c) == inner
  {
    var s := [c] + inner + [c];
    var t := inner + [c];
    assert s[1..] == t;
    TrimStartCharOnce(s, c);
    if inner == [] {
      TrimStartCharOnce(t, c);
      assert t[1..] == [];
    } else {
      assert t[0] == inner[0];
      assert t[..|t| - 1] == inner;
      TrimEndCharOnce(t, c);
    }
  }

  /** A leading `c` is stripped and trimming goes on after it. */
  lemma TrimStartCharOnce(s: string, c: char)
    requires s != [] && s[0] == c
    ensures TrimStartChar(s, c) == TrimStartChar(s[1..], c)
  {
  }

  /** A final `c` is stripped and trimming goes on before it. */
  lemma TrimEndCharOnce(s: string, c: char)
    requires s != [] && s[|s| - 1] == c
    ensures TrimEndChar(s, c) == TrimEndChar(s[..|s| - 1], c)
  {
  }

  /** Rust `trim_start_matches(p)`: strip every leading copy of `p`. */
  function TrimStartMatches(s: string, p: string): (r: string)
    requires |p| > 0
    ensures |r| <= |s| && r == s[|s| - |r|..]
    ensures !StartsWith(r, p)
    decreases |s|
  {
    if StartsWith(s, p) then TrimStartMatches(s[|p|..], p) else s
  }

  /** Rust `trim_end_matches(p)`: strip every trailing copy of `p`. */
  function TrimEndMatches(s: string, p: string): (r: string)
    requires |p| > 0
    ensures |r| <= |s| && r == s[..|r|]
    ensures !EndsWith(r, p)
    decreases |s|
  {
    if EndsWith(s, p) then TrimEndMatches(s[..|s| - |p|], p) else s
  }

  // ---------------------------------------------------------------------------
  // Decimal numbers
  // ---------------------------------------------------------------------------

  predicate IsDigit(c: char) { '0' <= c <= '9' }

  predicate AllDigits(s: string) { forall i :: 0 <= i < |s| ==> IsDigit(s[i]) }

  function DigitValue(c: char): nat
    requires IsDigit(c)
  {
    c as int - '0' as int
  }

  function DigitChar(d: nat): (c: char)
    requires d < 10
    ensures IsDigit(c) && DigitValue(c) == d
  {
    ('0' as int + d) as char
  }

  /** The value of a string of decimal digits, most significant first. */
  function DigitsValue(s: string): nat
    requires AllDigits(s)
  {
    if s == [] then 0 else 10 * DigitsValue(s[..|s| - 1]) + DigitValue(s[|s| - 1])
  }

  /** A leading zero does not change the value. */
  lemma {:induction false} DigitsValueLeadingZero(d: string)
    requires AllDigits(d)
    ensures AllDigits(['0'] + d) && DigitsValue(['0'] + d) == DigitsValue(d)
    decreases |d|
  {
    if d != [] {
      assert (['0'] + d)[..|d|] == ['0'] + d[..|d| - 1];
      DigitsValueLeadingZero(d[..|d| - 1]);
    }
  }

  /** Rust's `{}` formatting of an unsigned integer. */
  function NatToString(n: nat): (r: string)
    ensures r != [] && AllDigits(r)
    ensures DigitsValue(r) == n
    ensures |r| > 1 ==> r[0] != '0'
  {
    if n < 10 then [DigitChar(n)]
    else
      var r := NatToString(n / 10) + [DigitChar(n % 10)];
      assert r[..|r| - 1] == NatToString(n / 10);
      r
  }

  /**
   * Rust `str::parse::<uN>()`: an optional '+', then one or more ASCII digits
   * whose value is below `bound` (2^32 for u32, 2^64 for u64).
   */
  function ParseUnsigned(s: string, bound: nat): (r: Option<nat>)
    ensures r.Some? ==> r.value < bound
    ensures r.Some? ==> exists body :: (s == body || s == ['+'] + body) && body != [] && AllDigits(body) && DigitsValue(body) == r.value
  {
    var body := if |s| > 0 && s[0] == '+' then s[1..] else s;
    assert s == body || s == ['+'] + body;
    if body == [] || !AllDigits(body) then None
    else if DigitsValue(body) < bound then Some(DigitsValue(body))
    else None
  }

  const U32_BOUND: nat := 0x1_0000_0000
  const U64_BOUND: nat := 0x1_0000_0000_0000_0000

  function ParseU32(s: string): (r: Option<nat>)
    ensures r.Some? ==> r.value < U32_BOUND
  {
    ParseUnsigned(s, U32_BOUND)
  }

  function ParseU64(s: string): (r: Option<nat>)
    ensures r.Some? ==> r.value < U64_BOUND
  {
    ParseUnsigned(s, U64_BOUND)
  }

  /** Formatting and then parsing a number gives the number back. */
  lemma ParseFormatted(n: nat, bound: nat)
    requires n < bound
    ensures ParseUnsigned(NatToString(n), bound) == Some(n)
  {
    var s := NatToString(n);
    assert s[0] != '+' by { assert IsDigit(s[0]); }
  }

  /** A string with a character that is not a digit (after an optional '+') does not parse. */
  lemma ParseRejectsNonDigit(s: string, bound: nat, i: nat)
    requires 0 < i < |s| || (i == 0 && |s| > 0 && s[0] != '+')
    requires !IsDigit(s[i])
    ensures ParseUnsigned(s, bound).None?
  {
    if |s| > 0 && s[0] == '+' {
      assert s[1..][i - 1] == s[i];
    }
  }

  // ---------------------------------------------------------------------------
  // UTF-8 lengths (Rust strings index by byte)
  // ---------------------------------------------------------------------------

  function Utf8Width(c: char): (w: nat)
    ensures 1 <= w <= 4
    ensures w == 1 <==> c as int < 0x80
  {
    if c as int < 0x80 then 1
    else if c as int < 0x800 then 2
    else if c as int < 0x10000 then 3
    else 4
  }

  /** Rust `str::len`: the UTF-8 byte length. */
  function ByteLen(s: string): (n: nat)
    ensures n >= |s|
  {
    if s == [] then 0 else ByteLen(s[..|s| - 1]) + Utf8Width(s[|s| - 1])
  }

  lemma ByteLenAppend(a: string, b: string)
    ensures ByteLen(a + b) == ByteLen(a) + ByteLen(b)
    decreases |b|
  {
    if b == [] {
      assert a + b == a;
    } else {
      assert (a + b)[..|a + b| - 1] == a + b[..|b| - 1];
      ByteLenAppend(a, b[..|b| - 1]);
    }
  }

  lemma ByteLenPrefixStep(s: string, k: nat)
    requires k < |s|
    ensures ByteLen(s[..k + 1]) == ByteLen(s[..k]) + Utf8Width(s[k])
  {
    assert s[..k + 1][..k] == s[..k];
  }

  /** Prefix byte lengths strictly increase with the prefix. */
  lemma ByteLenPrefixMonotone(s: string, j: nat, k: nat)
    requires j < k <= |s|
    ensures ByteLen(s[..j]) < ByteLen(s[..k])
    decreases k - j
  {
    ByteLenPrefixStep(s, k - 1);
    if j < k - 1 {
      ByteLenPrefixMonotone(s, j, k - 1);
    }
  }

  predicate IsAscii(s: string)
  {
    forall i :: 0 <= i < |s| ==> s[i] as int < 0x80
  }

  lemma ByteLenAscii(s: string)
    requires IsAscii(s)
    ensures ByteLen(s) == |s|
  {
    if s != [] {
      ByteLenAscii(s[..|s| - 1]);
    }
  }

  /**
   * The longest prefix of `s` that fits in `max` bytes, as a character count
   * (Rust's `floor_char_boundary`).
   */
  function CharsWithin(s: string, max: nat): (k: nat)
    ensures k <= |s| && ByteLen(s[..k]) <= max
    ensures k < |s| ==> ByteLen(s[..k + 1]) > max
  {
    CharsWithinFrom(s, max, 0)
  }

  function CharsWithinFrom(s: string, max: nat, k: nat): (r: nat)
    requires k <= |s| && ByteLen(s[..k]) <= max
    ensures k <= r <= |s| && ByteLen(s[..r]) <= max
    ensures r < |s| ==> ByteLen(s[..r + 1]) > max
    decreases |s| - k
  {
    if k == |s| then k
    else
      ByteLenPrefixStep(s, k);
      if ByteLen(s[..k + 1]) > max then k else CharsWithinFrom(s, max, k + 1)
  }

  /**
   * The character index at byte offset `b`, or None when `b` is past the end
   * or inside a character (where Rust's `&s[..b]` panics).
   */
  function CharIndexAtByte(s: string, b: nat): (r: Option<nat>)
    ensures r.Some? ==> r.value <= |s| && ByteLen(s[..r.value]) == b
    ensures r.None? ==> forall k :: 0 <= k <= |s| ==> ByteLen(s[..k]) != b
  {
    var k := CharsWithin(s, b);
    if ByteLen(s[..k]) == b then Some(k)
    else
      assert forall j :: 0 <= j <= |s| ==> ByteLen(s[..j]) != b by {
        forall j | 0 <= j <= |s|
          ensures ByteLen(s[..j]) != b
        {
          if j < k {
            ByteLenPrefixMonotone(s, j, k);
          } else if j > k {
            if j > k + 1 { ByteLenPrefixMonotone(s, k + 1, j); }
          }
        }
      }
      None
  }

  /** Rust `&s[..b]`: the first `b` bytes, or None where Rust panics (`b` past the end or inside a character). */
  function BytePrefix(s: string, b: nat): (r: Option<string>)
    ensures r.Some? ==> |r.value| <= |s| && r.value == s[..|r.value|] && ByteLen(r.value) == b
    ensures r.None? <==> forall k :: 0 <= k <= |s| ==> ByteLen(s[..k]) != b
  {
    match CharIndexAtByte(s, b)
    case Some(k) => Some(s[..k])
    case None => None
  }

  /** A string that fits in `b` bytes is its own longest prefix within `b` bytes. */
  lemma CharsWithinWhole(s: string, b: nat)
    requires ByteLen(s) <= b
    ensures CharsWithin(s, b) == |s|
  {
    var k := CharsWithin(s, b);
    if k < |s| {
      PrefixByteLenAtMost(s, k + 1);
    }
  }

  lemma PrefixByteLenAtMost(s: string, j: nat)
    requires j <= |s|
    ensures ByteLen(s[..j]) <= ByteLen(s)
  {
    assert s[..|s|] == s;
    if j < |s| {
      ByteLenPrefixMonotone(s, j, |s|);
    }
  }

  /** The longest prefix of `s` within `b` bytes (`&s[..s.floor_char_boundary(b)]`). */
  function FloorBytePrefix(s: string, b: nat): (r: string)
    ensures |r| <= |s| && r == s[..|r|] && ByteLen(r) <= b
    ensures |r| < |s| ==> ByteLen(s[..|r| + 1]) > b
    ensures ByteLen(s) <= b ==> r == s
  {
    if ByteLen(s) <= b then CharsWithinWhole(s, b); s[..CharsWithin(s, b)]
    else s[..CharsWithin(s, b)]
  }

  /** Where Rust's byte slice does not panic, it cuts where the floor prefix does. */
  lemma BytePrefixAgrees(s: string, b: nat)
    requires BytePrefix(s, b).Some?
    ensures BytePrefix(s, b).value == FloorBytePrefix(s, b)
  {
  }

  /**
   * Rust's `if s.len() <= n { s } else { &s[..n] }` as written: None where
   * the slice panics.
   */
  function TruncateBytesAsWritten(s: string, n: nat): (r: Option<string>)
    ensures r.Some? ==> |r.value| <= |s| && r.value == s[..|r.value|] && ByteLen(r.value) <= n
  {
    if ByteLen(s) <= n then assert s[..|s|] == s; Some(s) else BytePrefix(s, n)
  }

  /** The same cut made at the last character boundary within `n` bytes. */
  function TruncateBytes(s: string, n: nat): (r: string)
    ensures |r| <= |s| && r == s[..|r|] && ByteLen(r) <= n
    ensures ByteLen(s) <= n ==> r == s
    ensures |r| < |s| ==> ByteLen(s[..|r| + 1]) > n
  {
    FloorBytePrefix(s, n)
  }

  /** Where the slice does not panic, both cuts agree. */
  lemma TruncateBytesAgrees(s: string, n: nat)
    requires TruncateBytesAsWritten(s, n).Some?
    ensures TruncateBytesAsWritten(s, n).value == TruncateBytes(s, n)
  {
    if ByteLen(s) > n {
      BytePrefixAgrees(s, n);
    }
  }

  /**
   * Text whose byte `n` falls inside a multi-byte character: an ASCII head
   * of `n - 1` bytes followed by a character of two bytes or more.
   */
  lemma ByteSliceInsideCharacter(head: string, c: char, tail: string)
    requires IsAscii(head) && Utf8Width(c) >= 2
    ensures BytePrefix(head + [c] + tail, |head| + 1).None?
    ensures ByteLen(head + [c] + tail) > |head| + 1
  {
    var s := head + [c] + tail;
    var n := |head|;
    ByteLenAscii(head);
    ByteLenAppend(head, [c]);
    ByteLenAppend(head + [c], tail);
    assert s[..n] == head && s[..n + 1] == head + [c];
    forall k | 0 <= k <= |s|
      ensures ByteLen(s[..k]) != n + 1
    {
      if k < n {
        ByteLenPrefixMonotone(s, k, n);
      } else if k > n + 1 {
        ByteLenPrefixMonotone(s, n + 1, k);
      }
    }
  }

  /** The slice panics on such text. */
  lemma TruncateSplitsCharacter(head: string, c: char, tail: string)
    requires IsAscii(head) && Utf8Width(c) >= 2
    ensures TruncateBytesAsWritten(head + [c] + tail, |head| + 1).None?
  {
    ByteSliceInsideCharacter(head, c, tail);
  }

  /** Rust `s.rsplit(c).next()` (and `split(c).last()`): the text after the last `c`. */
  function AfterLast(s: string, c: char): (r: string)
    ensures c !in r && |r| <= |s| && r == s[|s| - |r|..]
    ensures r == s || s[|s| - |r| - 1] == c
  {
    match LastIndexOf(s, c)
    case None => s
    case Some(k) => s[k + 1..]
  }
}
