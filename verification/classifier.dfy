/**
  The statement classifier and terminator normaliser. A stripped fragment is a
  procedural (PL/SQL) block when its lead token, the first word of its first line
  that is neither blank nor a `--` comment, is DECLARE or BEGIN, or is CREATE
  while the upper-cased fragment mentions PROCEDURE, PACKAGE, FUNCTION or TRIGGER
  anywhere. Procedural blocks must end with `;`; simple statements lose one
  trailing `;`.
 */
module Classifier {
  import opened Text

  datatype StatementKind = Simple | Procedural

  /** A normalised statement as it is handed to the driver. */
  datatype Statement = Statement(text: String, kind: StatementKind)

  /** Two hyphens open a line comment. */
  predicate IsCommentStart(t: String)
  {
    |t| >= 2 && t[0] == '-' && t[1] == '-'
  }

  /** A line the lead-token scan passes over: blank, or a comment once stripped. */
  predicate IsSkippable(line: String)
  {
    var t := Strip(line);
    t == [] || IsCommentStart(t)
  }

  /** Line `i` is the first line that is neither blank nor a comment. */
  ghost predicate IsFirstCodeLine(lines: seq<String>, i: int)
  {
    0 <= i < |lines| && !IsSkippable(lines[i]) && forall j :: 0 <= j < i ==> IsSkippable(lines[j])
  }

  /** The upper-cased first word of a line that is not skipped. */
  function LineToken(line: String): (token: String)
  {
    ToUpper(FirstWord(Strip(line)))
  }

  /** The scan of the runner: skip blank and comment lines, take the first word of the
      first remaining line, upper-cased; empty when every line is skipped. */
  function LeadTokenOf(lines: seq<String>): (token: String)
    ensures token == [] <==> forall k :: 0 <= k < |lines| ==> IsSkippable(lines[k])
  {
    if lines == [] then []
    else if IsSkippable(lines[0]) then LeadTokenOf(lines[1..])
    else
      var t := Strip(lines[0]);
      assert FirstWord(t) == [t[0]] + FirstWord(t[1..]);
      LineToken(lines[0])
  }

  /** The lead token is the token of the first code line, and exists exactly when
      such a line exists. */
  lemma {:induction false} LeadTokenIsFirstCodeLine(lines: seq<String>)
    ensures forall i :: IsFirstCodeLine(lines, i) ==> LeadTokenOf(lines) == LineToken(lines[i])
    ensures (forall i :: !IsFirstCodeLine(lines, i)) ==> LeadTokenOf(lines) == []
  {
    if lines != [] {
      LeadTokenIsFirstCodeLine(lines[1..]);
      if IsSkippable(lines[0]) {
        forall i | IsFirstCodeLine(lines, i)
          ensures IsFirstCodeLine(lines[1..], i - 1)
        {
          assert i != 0;
        }
        forall i | IsFirstCodeLine(lines[1..], i)
          ensures IsFirstCodeLine(lines, i + 1)
        {
        }
      } else {
        assert IsFirstCodeLine(lines, 0);
        forall i | IsFirstCodeLine(lines, i)
          ensures i == 0
        {
        }
      }
    }
  }

  /** The lead token of a fragment: the token of its first code line, empty when every
      line is blank or a comment. */
  function LeadToken(clean: String): (token: String)
  {
    LeadTokenOf(SplitLines(clean))
  }

  const RoutineKeywords: seq<String> := ["PROCEDURE", "PACKAGE", "FUNCTION", "TRIGGER"]

  /** The plain substring test of the runner, on the upper-cased fragment. */
  predicate MentionsRoutine(upper: String)
  {
    Contains(upper, "PROCEDURE") || Contains(upper, "PACKAGE")
    || Contains(upper, "FUNCTION") || Contains(upper, "TRIGGER")
  }

  /** The substring test holds exactly when one of the four keywords occurs somewhere. */
  lemma MentionsRoutineIff(upper: String)
    ensures MentionsRoutine(upper) <==> exists k, p :: 0 <= k < |RoutineKeywords| && OccursAt(upper, RoutineKeywords[k], p)
  {
    ContainsIffOccurs(upper, RoutineKeywords[0]);
    ContainsIffOccurs(upper, RoutineKeywords[1]);
    ContainsIffOccurs(upper, RoutineKeywords[2]);
    ContainsIffOccurs(upper, RoutineKeywords[3]);
  }

  /** The runner's decision between a procedural block and a simple statement. Only the
      lead tokens DECLARE, BEGIN and CREATE can make a block; DECLARE and BEGIN always
      do, and CREATE does exactly when a routine keyword occurs in the upper-cased text. */
  function Classify(clean: String): (kind: StatementKind)
    ensures kind == Procedural ==> LeadToken(clean) in ["DECLARE", "BEGIN", "CREATE"]
    ensures LeadToken(clean) in ["DECLARE", "BEGIN"] ==> kind == Procedural
    ensures LeadToken(clean) == "CREATE" ==>
      (kind == Procedural <==> exists k, p :: 0 <= k < |RoutineKeywords| && OccursAt(ToUpper(clean), RoutineKeywords[k], p))
  {
    MentionsRoutineIff(ToUpper(clean));
    var token := LeadToken(clean);
    if token == "DECLARE" || token == "BEGIN" then Procedural
    else if token == "CREATE" && MentionsRoutine(ToUpper(clean)) then Procedural
    else Simple
  }

  /** The classification rule stated over the first code line and keyword occurrences:
      procedural exactly when the first code line starts with DECLARE or BEGIN, or starts
      with CREATE while one of the routine keywords occurs in the upper-cased text. */
  lemma ClassifyRule(clean: String)
    ensures Classify(clean) == Procedural <==>
      exists i :: IsFirstCodeLine(SplitLines(clean), i) && BlockLine(clean, i)
  {
    if Classify(clean) == Procedural {
      var i := ProceduralHasCodeLine(clean);
      assert BlockLine(clean, i);
    }
    forall i | IsFirstCodeLine(SplitLines(clean), i) && BlockLine(clean, i)
      ensures Classify(clean) == Procedural
    {
      LeadTokenIsFirstCodeLine(SplitLines(clean));
    }
  }

  /** Line `i` of the fragment opens a block: it starts with DECLARE or BEGIN, or with
      CREATE while a routine keyword occurs somewhere in the upper-cased text. */
  ghost predicate BlockLine(clean: String, i: int)
    requires 0 <= i < |SplitLines(clean)|
  {
    var token := LineToken(SplitLines(clean)[i]);
    || token == "DECLARE" || token == "BEGIN"
    || (token == "CREATE" && exists k, p :: 0 <= k < |RoutineKeywords| && OccursAt(ToUpper(clean), RoutineKeywords[k], p))
  }

  /** A block has a first code line, and its token is the lead token. */
  lemma ProceduralHasCodeLine(clean: String) returns (i: int)
    requires Classify(clean) == Procedural
    ensures IsFirstCodeLine(SplitLines(clean), i)
    ensures LineToken(SplitLines(clean)[i]) == LeadToken(clean)
  {
    var lines := SplitLines(clean);
    LeadTokenIsFirstCodeLine(lines);
    if forall j :: !IsFirstCodeLine(lines, j) {
      assert false;
    }
    i :| IsFirstCodeLine(lines, i);
  }

  /** Procedural normalisation: make sure the block ends with `;`. */
  function TerminateBlock(clean: String): (r: String)
    ensures StartsWith(r, clean) && EndsWith(r, ';')
    ensures EndsWith(clean, ';') ==> r == clean
    ensures |r| <= |clean| + 1
  {
    if EndsWith(clean, ';') then clean else clean + [';']
  }

  /** Simple normalisation: drop exactly one trailing `;` if there is one. */
  function DropTerminator(clean: String): (r: String)
    ensures StartsWith(clean, r)
    ensures |clean| - |r| <= 1
    ensures |r| < |clean| <==> EndsWith(clean, ';')
  {
    if EndsWith(clean, ';') then clean[..|clean| - 1] else clean
  }

  /** Classification followed by the matching terminator rule. A block keeps its text and
      gains a `;` only when it lacks one; a simple statement is a prefix of the fragment,
      one character shorter exactly when the fragment ended with `;`. */
  function Normalize(clean: String): (st: Statement)
    ensures st.kind == Classify(clean)
    ensures st.kind == Procedural ==>
      StartsWith(st.text, clean) && EndsWith(st.text, ';') && (EndsWith(clean, ';') ==> st.text == clean) && |st.text| <= |clean| + 1
    ensures st.kind == Simple ==>
      StartsWith(clean, st.text) && |clean| - |st.text| <= 1 && (|st.text| < |clean| <==> EndsWith(clean, ';'))
  {
    var kind := Classify(clean);
    match kind
    case Procedural => Statement(TerminateBlock(clean), kind)
    case Simple => Statement(DropTerminator(clean), kind)
  }

  /** Appending the block terminator twice is the same as once. */
  lemma TerminateBlockIdempotent(clean: String)
    ensures TerminateBlock(TerminateBlock(clean)) == TerminateBlock(clean)
  {
  }

  /** Dropping the terminator again changes nothing exactly when the first drop left
      no `;` at the end, which fails for text ending in `;;`. */
  lemma DropTerminatorIdempotentIff(clean: String)
    ensures DropTerminator(DropTerminator(clean)) == DropTerminator(clean)
      <==> !(|clean| >= 2 && clean[|clean| - 2] == ';' && clean[|clean| - 1] == ';')
  {
  }

  /** The terminator the driver sees: a block always ends with `;`; a simple statement
      ends with `;` only when the fragment ended with two of them. */
  lemma NormalizedTerminator(clean: String)
    ensures Normalize(clean).kind == Procedural ==> EndsWith(Normalize(clean).text, ';')
    ensures Normalize(clean).kind == Simple ==>
      (EndsWith(Normalize(clean).text, ';') <==> |clean| >= 2 && clean[|clean| - 2] == ';' && clean[|clean| - 1] == ';')
  {
  }

  /** Normalisation leaves the text alone exactly when it already has the shape its kind
      requires: a block ending in `;`, or a simple statement not ending in `;`. */
  lemma NormalizeFixedPoint(clean: String)
    ensures Normalize(clean).text == clean <==>
      (Classify(clean) == Procedural && EndsWith(clean, ';')) || (Classify(clean) == Simple && !EndsWith(clean, ';'))
  {
  }

  /** A comment line in front of a fragment does not change its lead token, whatever
      keyword the comment holds. */
  lemma CommentLineIgnored(comment: String, br: String, rest: String)
    requires SingleLine(comment)
    requires IsCommentStart(Strip(comment))
    requires IsLineEnd(br, rest)
    ensures LeadToken(comment + br + rest) == LeadToken(rest)
  {
    SplitLinesCons(comment, br, rest);
    assert ([comment] + SplitLines(rest))[1..] == SplitLines(rest);
  }

  /** Hence a commented-out DECLARE or BEGIN never makes a fragment procedural: unless
      the code below starts with CREATE, the fragment is classified as if the comment
      were absent. */
  lemma CommentedKeywordIgnored(comment: String, br: String, rest: String)
    requires SingleLine(comment)
    requires IsCommentStart(Strip(comment))
    requires IsLineEnd(br, rest)
    requires LeadToken(rest) != "CREATE"
    ensures Classify(comment + br + rest) == Classify(rest)
  {
    CommentLineIgnored(comment, br, rest);
  }

  /** On a fragment of one stripped code line the lead token is that line's first
      word, upper-cased. */
  lemma OneLineToken(s: String)
    requires s != [] && IsStripped(s) && !IsCommentStart(s)
    requires SingleLine(s)
    ensures LeadToken(s) == ToUpper(FirstWord(s))
  {
    SplitLinesOneLine(s);
    StripStripped(s);
    assert !IsSkippable(s);
    assert LeadTokenOf([s]) == LineToken(s);
  }

  /** A fragment that is a single word is its own lead token, upper-cased. */
  lemma OneWordToken(w: String)
    requires w != [] && !IsCommentStart(w)
    requires forall i :: 0 <= i < |w| ==> !IsSpace(w[i])
    ensures LeadToken(w) == ToUpper(w)
  {
    OneLineToken(w);
    FirstWordWhole(w);
  }

  /** On a one-line fragment made of a word, a space and more text, the lead token is
      that word, upper-cased. */
  lemma WordLineToken(w: String, tail: String)
    requires w != [] && !IsCommentStart(w) && forall i :: 0 <= i < |w| ==> !IsSpace(w[i])
    requires SingleLine(tail) && tail != [] && !IsSpace(tail[|tail| - 1])
    ensures LeadToken(w + [' '] + tail) == ToUpper(w)
  {
    var s := w + [' '] + tail;
    assert SingleLine(s) by {
      assert SingleLine(w);
      SingleLineConcat(w, [' ']);
      SingleLineConcat(w + [' '], tail);
    }
    assert IsStripped(s) && !IsCommentStart(s) by {
      assert s[|s| - 1] == tail[|tail| - 1];
      assert s[0] == w[0];
      if |w| > 1 {
        assert s[1] == w[1];
      }
    }
    FirstWordBefore(w, ' ', tail);
    OneLineToken(s);
  }

  /** When the first line holds code, the lines after it play no part in the lead token. */
  lemma FirstLineToken(line: String, br: String, rest: String)
    requires SingleLine(line)
    requires !IsSkippable(line)
    requires IsLineEnd(br, rest)
    ensures LeadToken(line + br + rest) == LineToken(line)
  {
    SplitLinesCons(line, br, rest);
    assert LeadTokenOf([line] + SplitLines(rest)) == LineToken(line);
  }

  /** A one-line CREATE statement is procedural exactly when the substring test on its
      upper-cased text finds a routine keyword. */
  lemma CreateLine(rest: String)
    requires SingleLine(rest)
    requires rest != [] && !IsSpace(rest[|rest| - 1])
    ensures Classify("CREATE" + [' '] + rest) == Procedural <==> MentionsRoutine(ToUpper("CREATE" + [' '] + rest))
  {
    var w: String := "CREATE";
    assert forall i :: 0 <= i < |w| ==> !IsSpace(w[i]);
    WordLineToken(w, rest);
    CreateKeyword();
  }

  lemma CreateKeyword()
    ensures ToUpper("CREATE") == "CREATE"
  {
    var w: String := "CREATE";
    assert w[0] == 'C' && w[1] == 'R' && w[2] == 'E' && w[3] == 'A' && w[4] == 'T' && w[5] == 'E';
  }

  /** Any word that upper-cases to a routine keyword, anywhere in the text, is a mention,
      whatever its case and whatever surrounds it. */
  lemma MentionsKeyword(p: String, word: String, q: String)
    requires ToUpper(word) in RoutineKeywords
    ensures MentionsRoutine(ToUpper(p + word + q))
  {
    var u := ToUpper(p + word + q);
    var kw := ToUpper(word);
    var k :| 0 <= k < |RoutineKeywords| && RoutineKeywords[k] == kw;
    assert OccursAt(u, RoutineKeywords[k], |p|) by {
      assert u[|p|..|p| + |kw|] == kw;
    }
    MentionsRoutineIff(u);
  }

  /** A one-line CREATE statement that mentions a routine keyword anywhere after its first
      word is a procedural block, left as it is when it already ends with `;`. */
  lemma CreateMentioning(mid: String, word: String, tail: String)
    requires ToUpper(word) in RoutineKeywords
    requires SingleLine(mid) && SingleLine(word) && SingleLine(tail)
    requires EndsWith(tail, ';')
    ensures Normalize("CREATE " + mid + word + tail) == Statement("CREATE " + mid + word + tail, Procedural)
  {
    var rest := mid + word + tail;
    var clean := "CREATE" + [' '] + rest;
    assert "CREATE " == "CREATE" + [' '];
    assert clean == "CREATE " + mid + word + tail;
    SingleLineConcat(mid, word);
    SingleLineConcat(mid + word, tail);
    assert rest[|rest| - 1] == ';';
    assert MentionsRoutine(ToUpper(clean)) by {
      MentionsKeyword("CREATE" + [' '] + mid, word, tail);
    }
    CreateLine(rest);
  }

  /** Every routine keyword holds a P, an F or a G, so a one-line CREATE statement whose
      upper-cased text has none of these letters is simple and loses its terminator. */
  lemma CreateWithoutRoutine(rest: String)
    requires SingleLine(rest) && EndsWith(rest, ';')
    requires forall i :: 0 <= i < |rest| ==> UpperChar(rest[i]) != 'P' && UpperChar(rest[i]) != 'F' && UpperChar(rest[i]) != 'G'
    ensures Normalize("CREATE " + rest) == Statement("CREATE " + rest[..|rest| - 1], Simple)
  {
    var head: String := "CREATE ";
    var clean := head + rest;
    assert head == "CREATE" + [' '];
    assert forall i :: 0 <= i < |head| ==> head[i] != 'P' && head[i] != 'F' && head[i] != 'G';
    var u := ToUpper(clean);
    assert forall i :: 0 <= i < |clean| ==> u[i] != 'P' && u[i] != 'F' && u[i] != 'G' by {
      forall i | 0 <= i < |clean|
        ensures u[i] != 'P' && u[i] != 'F' && u[i] != 'G'
      {
        if i >= |head| {
          assert clean[i] == rest[i - |head|];
        }
      }
    }
    assert !MentionsRoutine(u) by {
      MissingCharNotContained(u, RoutineKeywords[0], 0);
      MissingCharNotContained(u, RoutineKeywords[1], 0);
      MissingCharNotContained(u, RoutineKeywords[2], 0);
      MissingCharNotContained(u, RoutineKeywords[3], 3);
    }
    CreateLine(rest);
    assert clean[..|clean| - 1] == head + rest[..|rest| - 1];
  }
}
