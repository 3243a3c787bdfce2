/**
  Character-level helpers that mirror the Python `str` operations the SQL runner
  relies on: `isspace`, `strip`, `startswith`/`endswith`, substring `in`,
  ASCII `upper`, `splitlines` and `split()[0]`. `SplitOn` and `Join` (cut at and
  join with `'\n'`) are not called by the runner: they give the line view that a
  MULTILINE pattern's `^` and `$` anchor to.
 */
module Text {

  type String = seq<char>

  /** Python's `str.isspace()` for one character. The same set is used by
      `str.strip()`, by `str.split()` without an argument and by the regex class `\s`. */
  predicate IsSpace(c: char)
  {
    || c == ' ' || c == '\t' || c == '\n' || c == '\r'
    || c == '\U{0B}' || c == '\U{0C}'
    || ('\U{1C}' <= c <= '\U{1F}')
    || c == '\U{85}' || c == '\U{A0}' || c == '\U{1680}'
    || ('\U{2000}' <= c <= '\U{200A}')
    || c == '\U{2028}' || c == '\U{2029}' || c == '\U{202F}' || c == '\U{205F}' || c == '\U{3000}'
  }

  /** The characters at which `str.splitlines()` ends a line ("\r\n" counts once). */
  predicate IsLineBreak(c: char)
  {
    || c == '\n' || c == '\r' || c == '\U{0B}' || c == '\U{0C}'
    || ('\U{1C}' <= c <= '\U{1E}')
    || c == '\U{85}' || c == '\U{2028}' || c == '\U{2029}'
  }

  /** No character of `s` ends a line for `splitlines()`. */
  predicate SingleLine(s: String)
  {
    forall i :: 0 <= i < |s| ==> !IsLineBreak(s[i])
  }

  lemma SingleLineConcat(a: String, b: String)
    requires SingleLine(a) && SingleLine(b)
    ensures SingleLine(a + b)
  {
    forall i | 0 <= i < |a + b|
      ensures !IsLineBreak((a + b)[i])
    {
      if i >= |a| {
        assert (a + b)[i] == b[i - |a|];
      }
    }
  }

  predicate AllSpace(s: String)
  {
    forall i :: 0 <= i < |s| ==> IsSpace(s[i])
  }

  /** Neither end of `s` is whitespace: the shape `strip()` produces. */
  predicate IsStripped(s: String)
  {
    s == [] || (!IsSpace(s[0]) && !IsSpace(s[|s| - 1]))
  }

  /** `s` with its leading whitespace removed (`str.lstrip()`). */
  function TrimStart(s: String): (r: String)
    ensures |r| <= |s|
    ensures r == [] || !IsSpace(r[0])
  {
    if s != [] && IsSpace(s[0]) then TrimStart(s[1..]) else s
  }

  /** `lstrip()` removes a whitespace prefix and keeps the rest. */
  lemma {:induction false} TrimStartRemovesSpace(s: String)
    ensures TrimStart(s) == s[|s| - |TrimStart(s)|..]
    ensures AllSpace(s[..|s| - |TrimStart(s)|])
  {
    if s != [] && IsSpace(s[0]) {
      TrimStartRemovesSpace(s[1..]);
      assert s[..|s| - |TrimStart(s)|] == [s[0]] + s[1..][..|s[1..]| - |TrimStart(s[1..])|];
    }
  }

  /** `s` with its trailing whitespace removed (`str.rstrip()`). */
  function TrimEnd(s: String): (r: String)
    ensures |r| <= |s|
    ensures r == [] || !IsSpace(r[|r| - 1])
  {
    if s != [] && IsSpace(s[|s| - 1]) then TrimEnd(s[..|s| - 1]) else s
  }

  /** `rstrip()` removes a whitespace suffix and keeps the rest. */
  lemma {:induction false} TrimEndRemovesSpace(s: String)
    ensures TrimEnd(s) == s[..|TrimEnd(s)|]
    ensures AllSpace(s[|TrimEnd(s)|..])
  {
    if s != [] && IsSpace(s[|s| - 1]) {
      TrimEndRemovesSpace(s[..|s| - 1]);
      assert s[|TrimEnd(s)|..] == s[..|s| - 1][|TrimEnd(s[..|s| - 1])|..] + [s[|s| - 1]];
    }
  }

  /** Python's `str.strip()`: the text between the leading and the trailing whitespace. */
  function Strip(s: String): (r: String)
    ensures IsStripped(r)
  {
    var t := TrimStart(s);
    TrimEndRemovesSpace(t);
    TrimEnd(t)
  }

  /** What `strip()` removes is whitespace on both sides of its result, and it
      returns the empty text exactly for all-whitespace input. */
  lemma StripShape(s: String)
    ensures exists i :: 0 <= i <= |s| - |Strip(s)| && s[i..i + |Strip(s)|] == Strip(s)
                        && AllSpace(s[..i]) && AllSpace(s[i + |Strip(s)|..])
    ensures Strip(s) == [] <==> AllSpace(s)
  {
    var t := TrimStart(s);
    var r := TrimEnd(t);
    var i := |s| - |t|;
    TrimStartRemovesSpace(s);
    TrimEndRemovesSpace(t);
    assert s[i..i + |r|] == r;
    assert s[i + |r|..] == t[|r|..];
    if r == [] {
      assert s == s[..i] + t;
      assert t == t[|r|..];
    }
  }

  lemma {:induction false} TrimStartSkips(p: String, t: String)
    requires AllSpace(p)
    requires t == [] || !IsSpace(t[0])
    ensures TrimStart(p + t) == t
    decreases |p|
  {
    if p != [] {
      assert (p + t)[1..] == p[1..] + t;
      TrimStartSkips(p[1..], t);
    } else {
      assert p + t == t;
    }
  }

  lemma {:induction false} TrimEndSkips(t: String, q: String)
    requires AllSpace(q)
    requires t == [] || !IsSpace(t[|t| - 1])
    ensures TrimEnd(t + q) == t
    decreases |q|
  {
    if q != [] {
      assert (t + q)[..|t + q| - 1] == t + q[..|q| - 1];
      TrimEndSkips(t, q[..|q| - 1]);
    } else {
      assert t + q == t;
    }
  }

  /** `strip()` is characterised by its result alone: whenever `s` is a stripped core
      surrounded by whitespace, `strip()` returns exactly that core. */
  lemma {:induction false} StripUnique(p: String, m: String, q: String)
    requires AllSpace(p) && AllSpace(q) && IsStripped(m)
    ensures Strip(p + m + q) == m
  {
    if m == [] {
      assert p + m + q == (p + q) + [];
      assert AllSpace(p + q);
      TrimStartSkips(p + q, []);
    } else {
      assert p + m + q == p + (m + q);
      TrimStartSkips(p, m + q);
      TrimEndSkips(m, q);
    }
  }

  /** Text that is already stripped is left alone; in particular `strip()` is idempotent. */
  lemma StripStripped(m: String)
    requires IsStripped(m)
    ensures Strip(m) == m
  {
    assert [] + m + [] == m;
    StripUnique([], m, []);
  }

  predicate StartsWith(s: String, prefix: String)
  {
    |prefix| <= |s| && s[..|prefix|] == prefix
  }

  /** Python's `s.endswith(c)` for a one-character suffix. */
  predicate EndsWith(s: String, c: char)
  {
    |s| > 0 && s[|s| - 1] == c
  }

  /** `needle` occurs in `hay` starting at index `i`. */
  ghost predicate OccursAt(hay: String, needle: String, i: int)
  {
    0 <= i && i + |needle| <= |hay| && hay[i..i + |needle|] == needle
  }

  /** Python's substring test `needle in hay`, scanning left to right. */
  predicate Contains(hay: String, needle: String)
    decreases |hay|
  {
    if |needle| > |hay| then false
    else if hay[..|needle|] == needle then true
    else Contains(hay[1..], needle)
  }

  /** The scanning test agrees with the positional definition, in both directions. */
  lemma {:induction false} ContainsIffOccurs(hay: String, needle: String)
    ensures Contains(hay, needle) <==> exists i :: OccursAt(hay, needle, i)
    decreases |hay|
  {
    if |needle| > |hay| {
      assert forall i :: !OccursAt(hay, needle, i);
    } else if hay[..|needle|] == needle {
      assert OccursAt(hay, needle, 0);
    } else {
      ContainsIffOccurs(hay[1..], needle);
      if Contains(hay[1..], needle) {
        var i :| OccursAt(hay[1..], needle, i);
        assert hay[i + 1..i + 1 + |needle|] == hay[1..][i..i + |needle|];
        assert OccursAt(hay, needle, i + 1);
      } else {
        forall i | OccursAt(hay, needle, i)
          ensures false
        {
          assert i != 0;
          assert hay[1..][i - 1..i - 1 + |needle|] == hay[i..i + |needle|];
          assert OccursAt(hay[1..], needle, i - 1);
        }
      }
    }
  }

  /** Python's `upper()` on one character, for the ASCII letters. */
  function UpperChar(c: char): (u: char)
  {
    if 'a' <= c <= 'z' then (c as int - 32) as char else c
  }

  /** Python's `str.upper()` restricted to the ASCII letters. */
  function ToUpper(s: String): (r: String)
    ensures |r| == |s|
    ensures forall i :: 0 <= i < |s| ==> r[i] == UpperChar(s[i])
  {
    seq(|s|, i requires 0 <= i < |s| => UpperChar(s[i]))
  }

  /** The longest prefix of `s` that holds no whitespace. On a stripped, non-empty
      line this is Python's `line.split()[0]`. */
  function FirstWord(s: String): (w: String)
    ensures StartsWith(s, w)
    ensures forall i :: 0 <= i < |w| ==> !IsSpace(w[i])
    ensures |w| == |s| || IsSpace(s[|w|])
  {
    if s == [] || IsSpace(s[0]) then [] else [s[0]] + FirstWord(s[1..])
  }

  /** Python's `s.split(sep)`: the pieces between occurrences of `sep`, always at least one. */
  function SplitOn(s: String, sep: char): (parts: seq<String>)
    ensures |parts| >= 1
    ensures forall k :: 0 <= k < |parts| ==> sep !in parts[k]
  {
    if s == [] then [[]]
    else
      var rest := SplitOn(s[1..], sep);
      if s[0] == sep then [[]] + rest
      else [[s[0]] + rest[0]] + rest[1..]
  }

  /** Python's `sep.join(parts)`. */
  function Join(parts: seq<String>, sep: char): (s: String)
  {
    if parts == [] then []
    else if |parts| == 1 then parts[0]
    else parts[0] + [sep] + Join(parts[1..], sep)
  }

  /** Splitting and joining on the same separator gives back the original text. */
  lemma {:induction false} JoinSplitOn(s: String, sep: char)
    ensures Join(SplitOn(s, sep), sep) == s
  {
    if s != [] {
      var rest := SplitOn(s[1..], sep);
      JoinSplitOn(s[1..], sep);
      if s[0] == sep {
        assert SplitOn(s, sep)[1..] == rest;
      } else if |rest| == 1 {
        assert SplitOn(s, sep) == [[s[0]] + rest[0]];
      } else {
        var parts := SplitOn(s, sep);
        assert parts[1..] == rest[1..];
        assert Join(rest, sep) == rest[0] + [sep] + Join(rest[1..], sep);
      }
    }
  }

  /** Joining pieces that do not contain the separator and splitting again gives back the pieces. */
  lemma {:induction false} SplitOnJoin(parts: seq<String>, sep: char)
    requires |parts| >= 1
    requires forall k :: 0 <= k < |parts| ==> sep !in parts[k]
    ensures SplitOn(Join(parts, sep), sep) == parts
    decreases |parts|, |parts[0]|
  {
    var p := parts[0];
    if p == [] {
      if |parts| > 1 {
        SplitOnJoin(parts[1..], sep);
        assert Join(parts, sep) == [sep] + Join(parts[1..], sep);
        assert Join(parts, sep)[1..] == Join(parts[1..], sep);
      }
    } else {
      var parts' := [p[1..]] + parts[1..];
      assert parts'[1..] == parts[1..];
      SplitOnJoin(parts', sep);
      if |parts| == 1 {
        assert Join(parts, sep) == p;
        assert Join(parts', sep) == p[1..];
      } else {
        assert Join(parts, sep) == [p[0]] + Join(parts', sep);
      }
      assert Join(parts, sep)[1..] == Join(parts', sep);
      assert p == [p[0]] + p[1..];
    }
  }

  /** Python's `str.splitlines()`: lines without their terminators, "\r\n" ending one line,
      and no trailing empty line after a final terminator. */
  function SplitLines(s: String): (lines: seq<String>)
    ensures forall k :: 0 <= k < |lines| ==> SingleLine(lines[k])
    ensures s == [] <==> lines == []
    decreases |s|
  {
    if s == [] then []
    else if IsLineBreak(s[0]) then
      var skip := if s[0] == '\r' && |s| > 1 && s[1] == '\n' then 2 else 1;
      [[]] + SplitLines(s[skip..])
    else
      var rest := SplitLines(s[1..]);
      if rest == [] then [[s[0]]] else [[s[0]] + rest[0]] + rest[1..]
  }

  /** `br` is one line boundary of `splitlines()` in front of `rest`: "\r\n", or a single
      break character, where a lone '\r' must not be followed by '\n' (the two would be
      one boundary). */
  predicate IsLineEnd(br: String, rest: String)
  {
    || br == "\r\n"
    || (|br| == 1 && IsLineBreak(br[0]) && (br[0] == '\r' ==> rest == [] || rest[0] != '\n'))
  }

  /** A line ended by any line boundary comes off the front of `splitlines()` unchanged. */
  lemma {:induction false} SplitLinesCons(line: String, br: String, rest: String)
    requires SingleLine(line)
    requires IsLineEnd(br, rest)
    ensures SplitLines(line + br + rest) == [line] + SplitLines(rest)
    decreases |line|
  {
    var s := line + br + rest;
    if line == [] {
      assert s == br + rest;
      assert s[|br|..] == rest;
    } else {
      assert s[1..] == line[1..] + br + rest;
      SplitLinesCons(line[1..], br, rest);
      assert [line[0]] + line[1..] == line;
    }
  }

  /** A single line without a terminator is one line of `splitlines()`. */
  lemma {:induction false} SplitLinesOneLine(s: String)
    requires s != []
    requires SingleLine(s)
    ensures SplitLines(s) == [s]
    decreases |s|
  {
    if |s| > 1 {
      SplitLinesOneLine(s[1..]);
      var rest := SplitLines(s[1..]);
      assert rest[1..] == [];
      assert [s[0]] + s[1..] == s;
    } else {
      assert s[1..] == [];
      assert s == [s[0]];
    }
  }

  /** On text whose only line breaks are `'\n'` and that does not end with one,
      `splitlines()` and `split('\n')` agree. */
  lemma {:induction false} SplitLinesAsSplitOn(s: String)
    requires s != [] && s[|s| - 1] != '\n'
    requires forall i :: 0 <= i < |s| && IsLineBreak(s[i]) ==> s[i] == '\n'
    ensures SplitLines(s) == SplitOn(s, '\n')
    decreases |s|
  {
    if |s| == 1 {
      assert !IsLineBreak(s[0]);
      assert s[1..] == [];
      assert SplitOn(s[1..], '\n') == [[]];
      assert [s[0]] + [] == s && [s[0]] == s;
      assert SplitLines(s[1..]) == [];
      assert SplitLines(s) == [s];
      assert SplitOn(s, '\n') == [s];
    } else {
      SplitLinesAsSplitOn(s[1..]);
      assert SplitLines(s[1..]) != [];
      if s[0] == '\n' {
        assert SplitLines(s) == [[]] + SplitLines(s[1..]);
      }
    }
  }

  /** Text without the separator is not split at all. */
  lemma {:induction false} SplitOnWithoutSep(s: String, sep: char)
    requires sep !in s
    ensures SplitOn(s, sep) == [s]
  {
    if s != [] {
      SplitOnWithoutSep(s[1..], sep);
      assert [s[0]] + s[1..] == s;
    }
  }

  /** A word without whitespace is its own first word. */
  lemma {:induction false} FirstWordWhole(s: String)
    requires forall i :: 0 <= i < |s| ==> !IsSpace(s[i])
    ensures FirstWord(s) == s
  {
    if s != [] {
      FirstWordWhole(s[1..]);
      assert [s[0]] + s[1..] == s;
    }
  }

  /** The first word ends at the first whitespace character. */
  lemma {:induction false} FirstWordBefore(w: String, c: char, rest: String)
    requires forall i :: 0 <= i < |w| ==> !IsSpace(w[i])
    requires IsSpace(c)
    ensures FirstWord(w + [c] + rest) == w
  {
    if w != [] {
      assert (w + [c] + rest)[1..] == w[1..] + [c] + rest;
      FirstWordBefore(w[1..], c, rest);
      assert [w[0]] + w[1..] == w;
    } else {
      assert (w + [c] + rest)[0] == c;
    }
  }

  /** A needle occurs wherever it was put. */
  lemma ContainsInfix(p: String, needle: String, q: String)
    ensures Contains(p + needle + q, needle)
  {
    var hay := p + needle + q;
    assert hay[|p|..|p| + |needle|] == needle;
    assert OccursAt(hay, needle, |p|);
    ContainsIffOccurs(hay, needle);
  }

  /** A needle holding a character the text lacks does not occur in it. */
  lemma MissingCharNotContained(hay: String, needle: String, j: int)
    requires 0 <= j < |needle| && needle[j] !in hay
    ensures !Contains(hay, needle)
  {
    ContainsIffOccurs(hay, needle);
    forall i | 0 <= i
      ensures !OccursAt(hay, needle, i)
    {
      if i + |needle| <= |hay| {
        assert hay[i..i + |needle|][j] == hay[i + j];
        assert hay[i + j] in hay;
      }
    }
  }
}
