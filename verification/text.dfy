/**
 * The .NET string operations the exporter and the room model rely on, written
 * out over `seq<char>`: ordinal `Replace`, `Split` on one separator character,
 * dropping empty pieces, `Trim` and the count of leading spaces.
 */
module Text {
  import opened Wrappers

  /** `string.IsNullOrEmpty`, with `None` standing for null. */
  predicate IsNullOrEmpty(s: Option<string>) {
    s.None? || s.value == ""
  }

  /** `Char.IsWhiteSpace`: the Unicode space separators, line and paragraph separators and U+0009..U+000D, U+0085. */
  predicate IsWhiteSpace(c: char) {
    c == ' ' || '\t' <= c <= '\r' || c == '\U{85}' || c == '\U{A0}' || c == '\U{1680}'
    || '\U{2000}' <= c <= '\U{200A}' || c == '\U{2028}' || c == '\U{2029}'
    || c == '\U{202F}' || c == '\U{205F}' || c == '\U{3000}'
  }

  /** `s.Replace(pattern, replacement)`: ordinal, left to right, non-overlapping occurrences. */
  function Replace(s: string, pattern: string, replacement: string): string
    requires pattern != []
    decreases |s|
  {
    if |s| < |pattern| then s
    else if s[..|pattern|] == pattern then replacement + Replace(s[|pattern|..], pattern, replacement)
    else [s[0]] + Replace(s[1..], pattern, replacement)
  }

  /** Replacing a single character works character by character. */
  lemma {:induction false} ReplaceCharAppend(a: string, b: string, c: char, replacement: string)
    ensures Replace(a + b, [c], replacement) == Replace(a, [c], replacement) + Replace(b, [c], replacement)
    decreases |a|
  {
    if a == [] {
      assert a + b == b;
    } else {
      assert (a + b)[1..] == a[1..] + b;
      assert (a + b)[..1] == a[..1];
      ReplaceCharAppend(a[1..], b, c, replacement);
      var head := if a[0] == c then replacement else [a[0]];
      assert Replace(a + b, [c], replacement) == head + Replace(a[1..] + b, [c], replacement);
      assert Replace(a, [c], replacement) == head + Replace(a[1..], [c], replacement);
    }
  }

  /** A character that occurs in neither the text nor the replacement does not occur in the result. */
  lemma {:induction false} ReplaceKeepsOut(s: string, pattern: string, replacement: string, x: char)
    requires pattern != []
    requires x !in s && x !in replacement
    ensures x !in Replace(s, pattern, replacement)
    decreases |s|
  {
    if |s| >= |pattern| {
      if s[..|pattern|] == pattern {
        ReplaceKeepsOut(s[|pattern|..], pattern, replacement, x);
      } else {
        ReplaceKeepsOut(s[1..], pattern, replacement, x);
      }
    }
  }

  /** Replacing a character by text that does not contain it removes every occurrence. */
  lemma {:induction false} ReplaceRemovesChar(s: string, c: char, replacement: string)
    requires c !in replacement
    ensures c !in Replace(s, [c], replacement)
    decreases |s|
  {
    if s != [] {
      ReplaceRemovesChar(s[1..], c, replacement);
    }
  }

  /** Replacing a character that does not occur changes nothing. */
  lemma {:induction false} ReplaceAbsentChar(s: string, c: char, replacement: string)
    requires c !in s
    ensures Replace(s, [c], replacement) == s
    decreases |s|
  {
    if s != [] {
      ReplaceAbsentChar(s[1..], c, replacement);
      assert s == [s[0]] + s[1..];
    }
  }

  /** Replacing one character: the first character is handled on its own. */
  lemma ReplaceCons(c: char, t: string, x: char, replacement: string)
    ensures Replace([c] + t, [x], replacement) == (if c == x then replacement else [c]) + Replace(t, [x], replacement)
  {
    ReplaceCharAppend([c], t, x, replacement);
    assert Replace([c], [x], replacement) == (if c == x then replacement else [c]) + Replace([], [x], replacement);
  }

  /** Text that does not start with the pattern's first character keeps that character. */
  lemma ReplaceHead(c: char, t: string, pattern: string, replacement: string)
    requires pattern != [] && c != pattern[0]
    ensures Replace([c] + t, pattern, replacement) == [c] + Replace(t, pattern, replacement)
  {
    var s := [c] + t;
    assert s[1..] == t;
    if |s| < |pattern| {
      assert |t| < |pattern|;
    } else {
      assert s[..|pattern|][0] == c;
    }
  }

  /** Text that starts with the pattern has that occurrence replaced. */
  lemma ReplacePrefix(t: string, pattern: string, replacement: string)
    requires pattern != []
    ensures Replace(pattern + t, pattern, replacement) == replacement + Replace(t, pattern, replacement)
  {
    var s := pattern + t;
    assert s[..|pattern|] == pattern && s[|pattern|..] == t;
  }

  /** `s.Split(separator)`: the pieces between separators, empty pieces included. */
  function Split(s: string, separator: char): (pieces: seq<string>)
    ensures |pieces| >= 1
    decreases |s|
  {
    if s == [] then [""]
    else
      var rest := Split(s[1..], separator);
      if s[0] == separator then [""] + rest else [[s[0]] + rest[0]] + rest[1..]
  }

  /** `string.Join(separator, pieces)`. */
  function Join(pieces: seq<string>, separator: char): string
    decreases |pieces|
  {
    if pieces == [] then ""
    else if |pieces| == 1 then pieces[0]
    else pieces[0] + [separator] + Join(pieces[1..], separator)
  }

  /** Splitting loses nothing: joining the pieces with the separator gives back the text. */
  lemma {:induction false} JoinSplit(s: string, separator: char)
    ensures Join(Split(s, separator), separator) == s
    decreases |s|
  {
    if s != [] {
      var rest := Split(s[1..], separator);
      JoinSplit(s[1..], separator);
      if s[0] == separator {
        assert ([""] + rest)[1..] == rest;
      } else {
        var pieces := [[s[0]] + rest[0]] + rest[1..];
        if |rest| > 1 {
          assert pieces[1..] == rest[1..];
          assert Join(rest, separator) == rest[0] + [separator] + Join(rest[1..], separator);
        }
      }
    }
  }

  /** No piece contains the separator, and every piece's characters come from the text. */
  lemma {:induction false} SplitPieces(s: string, separator: char)
    ensures forall p :: p in Split(s, separator) ==> separator !in p
    ensures forall p, c :: p in Split(s, separator) && c in p ==> c in s
    decreases |s|
  {
    if s != [] {
      var rest := Split(s[1..], separator);
      SplitPieces(s[1..], separator);
      forall p, c | p in Split(s, separator) && c in p ensures c in s {
        assert c in s[1..] || c == s[0];
      }
    }
  }

  /** The pieces that are not empty (`StringSplitOptions.RemoveEmptyEntries`, `Where(p => p != "")`). */
  function RemoveEmpty(pieces: seq<string>): (kept: seq<string>)
    ensures forall p :: p in kept ==> p != "" && p in pieces
    decreases |pieces|
  {
    if pieces == [] then []
    else if pieces[0] == "" then RemoveEmpty(pieces[1..])
    else [pieces[0]] + RemoveEmpty(pieces[1..])
  }

  /** `s.TrimStart()`: drops the leading white space. */
  function TrimStart(s: string): (r: string)
    ensures |r| <= |s| && r == s[|s| - |r|..]
    ensures forall i :: 0 <= i < |s| - |r| ==> IsWhiteSpace(s[i])
    ensures r == [] || !IsWhiteSpace(r[0])
    decreases |s|
  {
    if s != [] && IsWhiteSpace(s[0]) then TrimStart(s[1..]) else s
  }

  /** `s.TrimEnd()`: drops the trailing white space. */
  function TrimEnd(s: string): (r: string)
    ensures |r| <= |s| && r == s[..|r|]
    ensures forall i :: |r| <= i < |s| ==> IsWhiteSpace(s[i])
    ensures r == [] || !IsWhiteSpace(r[|r| - 1])
    decreases |s|
  {
    if s != [] && IsWhiteSpace(s[|s| - 1]) then TrimEnd(s[..|s| - 1]) else s
  }

  /** `s.Trim()`. */
  function Trim(s: string): string {
    TrimEnd(TrimStart(s))
  }

  /** Trimming leaves nothing exactly when the text is white space only. */
  lemma TrimEmptyIffWhiteSpace(s: string)
    ensures Trim(s) == [] <==> forall i :: 0 <= i < |s| ==> IsWhiteSpace(s[i])
  {
    if forall i :: 0 <= i < |s| ==> IsWhiteSpace(s[i]) {
      TrimStartOfWhiteSpace(s);
    }
  }

  lemma {:induction false} TrimStartOfWhiteSpace(s: string)
    requires forall i :: 0 <= i < |s| ==> IsWhiteSpace(s[i])
    ensures TrimStart(s) == []
    decreases |s|
  {
    if s != [] {
      TrimStartOfWhiteSpace(s[1..]);
    }
  }

  /** The number of leading `' '` characters (tabs and other white space do not count). */
  function LeadingSpaces(s: string): (n: nat)
    ensures n <= |s|
    ensures forall i :: 0 <= i < n ==> s[i] == ' '
    ensures n == |s| || s[n] != ' '
    decreases |s|
  {
    if s != [] && s[0] == ' ' then 1 + LeadingSpaces(s[1..]) else 0
  }
}
