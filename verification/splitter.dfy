/**
  The statement splitter: the script is cut at every delimiter line, a line that
  holds a single `/` and otherwise only whitespace. Lines are the pieces between
  '\n' characters, which is where the multiline anchors `^` and `$` of the
  runner's split pattern apply, so a `/` that shares its line with other text
  never splits.
 */
module Splitter {
  import opened Text

  /** The lines of the script as the multiline anchors see them (`script.split('\n')`). */
  function Lines(script: String): (lines: seq<String>)
    ensures |lines| >= 1
    ensures forall k :: 0 <= k < |lines| ==> '\n' !in lines[k]
  {
    SplitOn(script, '\n')
  }

  /** A line made of optional whitespace, one `/`, optional whitespace. */
  predicate IsDelimiterLine(line: String)
  {
    var t := Strip(line); |t| == 1 && t[0] == '/'
  }

  /** The per-line pattern of the split: whitespace, one `/`, whitespace. */
  ghost predicate SlashAt(line: String, i: int)
  {
    0 <= i < |line| && line[i] == '/' && AllSpace(line[..i]) && AllSpace(line[i + 1..])
  }

  lemma DelimiterHasSlash(line: String)
    requires IsDelimiterLine(line)
    ensures exists i :: SlashAt(line, i)
  {
    StripShape(line);
    var t := Strip(line);
    var i :| 0 <= i <= |line| - |t| && line[i..i + |t|] == t && AllSpace(line[..i]) && AllSpace(line[i + |t|..]);
    assert line[i] == t[0];
    assert SlashAt(line, i);
  }

  lemma SlashIsDelimiter(line: String, i: int)
    requires SlashAt(line, i)
    ensures IsDelimiterLine(line)
  {
    assert line == line[..i] + [line[i]] + line[i + 1..];
    StripUnique(line[..i], [line[i]], line[i + 1..]);
  }

  /** The delimiter test is exactly the per-line pattern, in both directions. */
  lemma DelimiterLineShape(line: String)
    ensures IsDelimiterLine(line) <==> exists i :: SlashAt(line, i)
  {
    if IsDelimiterLine(line) {
      DelimiterHasSlash(line);
    }
    if exists i :: SlashAt(line, i) {
      var i :| SlashAt(line, i);
      SlashIsDelimiter(line, i);
    }
  }

  /** A line that holds some non-whitespace character besides a `/` (for example
      `SELECT '/data' FROM dual`) is never a delimiter line. */
  lemma InlineSlashIsNotDelimiter(line: String, j: int)
    requires 0 <= j < |line| && !IsSpace(line[j]) && line[j] != '/'
    ensures !IsDelimiterLine(line)
  {
    DelimiterLineShape(line);
    forall i | 0 <= i < |line| && line[i] == '/'
      ensures !SlashAt(line, i)
    {
      if j < i {
        assert line[..i][j] == line[j];
      } else {
        assert line[i + 1..][j - i - 1] == line[j];
      }
    }
  }

  /** The delimiter lines, in order. */
  function Delimiters(lines: seq<String>): (delimiters: seq<String>)
  {
    if lines == [] then []
    else if IsDelimiterLine(lines[0]) then [lines[0]] + Delimiters(lines[1..])
    else Delimiters(lines[1..])
  }

  /** The lines that are not delimiter lines, in order. */
  function Kept(lines: seq<String>): (kept: seq<String>)
  {
    if lines == [] then []
    else if IsDelimiterLine(lines[0]) then Kept(lines[1..])
    else [lines[0]] + Kept(lines[1..])
  }

  function Flatten(groups: seq<seq<String>>): (lines: seq<String>)
  {
    if groups == [] then [] else groups[0] + Flatten(groups[1..])
  }

  /** Puts the delimiter lines back between the groups. */
  function Interleave(groups: seq<seq<String>>, delimiters: seq<String>): (lines: seq<String>)
    requires |groups| == |delimiters| + 1
  {
    if delimiters == [] then groups[0]
    else groups[0] + [delimiters[0]] + Interleave(groups[1..], delimiters[1..])
  }

  /** Every line of `group` is a line of `lines` and none is a delimiter line. */
  predicate DrawnFrom(group: seq<String>, lines: seq<String>)
  {
    forall x :: x in group ==> x in lines && !IsDelimiterLine(x)
  }

  /** Cuts the lines at every delimiter line; the delimiter lines themselves are dropped. */
  function Group(lines: seq<String>): (groups: seq<seq<String>>)
    ensures |groups| == |Delimiters(lines)| + 1
  {
    if lines == [] then [[]]
    else
      var rest := Group(lines[1..]);
      if IsDelimiterLine(lines[0]) then [[]] + rest
      else [[lines[0]] + rest[0]] + rest[1..]
  }

  /** The groups hold only lines of the input, and no delimiter line. */
  lemma {:induction false} GroupDrawnFrom(lines: seq<String>)
    ensures forall g :: g in Group(lines) ==> DrawnFrom(g, lines)
  {
    if lines != [] {
      var rest := Group(lines[1..]);
      GroupDrawnFrom(lines[1..]);
      assert forall g :: g in rest ==> DrawnFrom(g, lines);
      if IsDelimiterLine(lines[0]) {
        assert Group(lines) == [[]] + rest;
      } else {
        assert Group(lines) == [[lines[0]] + rest[0]] + rest[1..];
        assert rest[0] in rest;
      }
    }
  }

  /** Grouping loses nothing: putting the delimiter lines back between the groups
      rebuilds the original lines. */
  lemma {:induction false} GroupRebuild(lines: seq<String>)
    ensures Interleave(Group(lines), Delimiters(lines)) == lines
  {
    if lines != [] {
      var rest := Group(lines[1..]);
      var ds := Delimiters(lines[1..]);
      GroupRebuild(lines[1..]);
      var groups := Group(lines);
      if IsDelimiterLine(lines[0]) {
        assert groups[1..] == rest;
      } else if ds == [] {
        assert groups[0] == [lines[0]] + rest[0];
      } else {
        assert groups[1..] == rest[1..];
        assert Interleave(rest, ds) == rest[0] + [ds[0]] + Interleave(rest[1..], ds[1..]);
      }
    }
  }

  /** Every line that is not a delimiter line lands in exactly one group, in its
      original order. */
  lemma {:induction false} GroupKeepsOrder(lines: seq<String>)
    ensures Flatten(Group(lines)) == Kept(lines)
  {
    if lines != [] {
      var rest := Group(lines[1..]);
      GroupKeepsOrder(lines[1..]);
      var groups := Group(lines);
      if IsDelimiterLine(lines[0]) {
        assert groups[1..] == rest;
      } else {
        assert groups[1..] == rest[1..];
        assert Flatten(rest) == rest[0] + Flatten(rest[1..]);
      }
    }
  }

  function JoinLines(groups: seq<seq<String>>): (fragments: seq<String>)
    ensures |fragments| == |groups|
    ensures forall g :: 0 <= g < |groups| ==> fragments[g] == Join(groups[g], '\n')
  {
    if groups == [] then [] else [Join(groups[0], '\n')] + JoinLines(groups[1..])
  }

  /** The runner's split of a script into raw fragments, each the '\n'-joined lines
      between two delimiter lines (or the start or end of the script). */
  function Split(script: String): (fragments: seq<String>)
    ensures |fragments| == |Delimiters(Lines(script))| + 1
  {
    JoinLines(Group(Lines(script)))
  }

  /** No fragment contains a delimiter line. */
  lemma FragmentsHaveNoDelimiterLine(script: String)
    ensures forall f, k :: 0 <= f < |Split(script)| && 0 <= k < |Lines(Split(script)[f])| ==>
      !IsDelimiterLine(Lines(Split(script)[f])[k])
  {
    var groups := Group(Lines(script));
    GroupDrawnFrom(Lines(script));
    forall f | 0 <= f < |Split(script)|
      ensures forall k :: 0 <= k < |Lines(Split(script)[f])| ==> !IsDelimiterLine(Lines(Split(script)[f])[k])
    {
      assert groups[f] in groups;
      FragmentLines(Lines(script), groups[f]);
    }
  }

  /** The lines of a joined group are the group's own lines, or one empty line when
      the group is empty. */
  lemma FragmentLines(lines: seq<String>, group: seq<String>)
    requires forall k :: 0 <= k < |lines| ==> '\n' !in lines[k]
    requires DrawnFrom(group, lines)
    ensures forall k :: 0 <= k < |Lines(Join(group, '\n'))| ==> !IsDelimiterLine(Lines(Join(group, '\n'))[k])
  {
    if group == [] {
      assert Lines([]) == [[]];
      StripShape([]);
    } else {
      forall k | 0 <= k < |group|
        ensures '\n' !in group[k]
      {
        assert group[k] in group;
        var j :| 0 <= j < |lines| && lines[j] == group[k];
      }
      SplitOnJoin(group, '\n');
    }
  }

  /** A group without delimiter lines is a single group. */
  lemma {:induction false} GroupWithoutDelimiters(lines: seq<String>)
    requires forall k :: 0 <= k < |lines| ==> !IsDelimiterLine(lines[k])
    ensures Group(lines) == [lines]
  {
    if lines != [] {
      GroupWithoutDelimiters(lines[1..]);
      assert [lines[0]] + lines[1..] == lines;
    }
  }

  /** A script without a delimiter line is one fragment, the whole script, however
      many `/` characters its lines contain. */
  lemma NoDelimiterNoSplit(script: String)
    requires forall k :: 0 <= k < |Lines(script)| ==> !IsDelimiterLine(Lines(script)[k])
    ensures Split(script) == [script]
  {
    GroupWithoutDelimiters(Lines(script));
    JoinSplitOn(script, '\n');
  }
}
