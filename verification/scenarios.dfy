/**
  Worked cases of the runner's pipeline: concrete fragments with the outcome the
  runner gives them. The inline path literal that must not split, a BEGIN block, a
  commented query, CREATE PROCEDURE and CREATE TABLE, the substring consequence of
  the CREATE rule, the terminator rule applied twice, and error suppression by
  message text.

  The concrete texts enter as parameters fixed by a `requires` (`x == "..."`)
  rather than as literals in the body, because the verifier unfolds functions
  applied to literals without bound and would not finish.
 */
module Scenarios {
  import opened Text
  import opened Splitter
  import opened Classifier
  import opened Executor

  lemma DropLastOfConcat(a: String, b: String)
    requires b != []
    ensures (a + b)[..|a + b| - 1] == a + b[..|b| - 1]
  {
  }

  /** A `/` inside a path literal does not split the script: the whole script is one fragment. */
  lemma PathLiteralDoesNotSplit(script: String)
    requires script == "SELECT '/data' FROM dual"
    ensures Split(script) == [script]
  {
    assert '\n' !in script;
    assert !IsSpace(script[0]) && script[0] != '/';
    assert Lines(script) == [script] by {
      SplitOnWithoutSep(script, '\n');
    }
    assert !IsDelimiterLine(script) by {
      InlineSlashIsNotDelimiter(script, 0);
    }
    NoDelimiterNoSplit(script);
  }

  /** A lone carriage return ends a line for `splitlines()`, which the lead-token scan
      uses, but not for the delimiter pattern, whose lines end only at '\n'. */
  lemma CarriageReturnLineViews(a: String, b: String)
    requires a == "a" && b == "b"
    ensures SplitLines(a + "\r" + b) == [a, b]
    ensures Lines(a + "\r" + b) == [a + "\r" + b]
  {
    assert SingleLine(a) && SingleLine(b) && IsLineEnd("\r", b);
    SplitLinesCons(a, "\r", b);
    SplitLinesOneLine(b);
    SplitOnWithoutSep(a + "\r" + b, '\n');
  }

  /** An anonymous block is procedural and already carries its terminator. */
  lemma BeginBlock(first: String, body: String)
    requires first == "BEGIN" && body == "  NULL;\nEND;"
    ensures Normalize(first + ['\n'] + body) == Statement(first + ['\n'] + body, Procedural)
  {
    assert forall i :: 0 <= i < |first| ==> !IsSpace(first[i]);
    assert IsStripped(first) && !IsCommentStart(first);
    assert body[|body| - 1] == ';';
    var clean := first + ['\n'] + body;
    assert LeadToken(clean) == ToUpper(first) by {
      StripStripped(first);
      FirstWordWhole(first);
      FirstLineToken(first, ['\n'], body);
    }
    assert ToUpper(first) == "BEGIN";
    assert EndsWith(clean, ';');
  }

  /** The lead token of the commented query is the query's first word. */
  lemma CommentedBeginToken(comment: String, w: String, tail: String)
    requires comment == "-- BEGIN test" && w == "SELECT" && tail == "1 FROM DUAL;"
    ensures LeadToken(comment + ['\n'] + (w + [' '] + tail)) == ToUpper(w)
  {
    assert SingleLine(comment) && IsStripped(comment) && IsCommentStart(comment);
    assert forall i :: 0 <= i < |w| ==> !IsSpace(w[i]);
    assert SingleLine(tail) && !IsSpace(tail[|tail| - 1]);
    StripStripped(comment);
    CommentLineIgnored(comment, ['\n'], w + [' '] + tail);
    WordLineToken(w, tail);
  }

  /** A BEGIN on a comment line above a query does not make it a block: the query is
      simple and loses its terminator, while the comment stays in the text. */
  lemma CommentedBegin(comment: String, query: String)
    requires comment == "-- BEGIN test" && query == "SELECT 1 FROM DUAL;"
    ensures Normalize(comment + ['\n'] + query) == Statement(comment + ['\n'] + query[..|query| - 1], Simple)
  {
    var w: String := "SELECT";
    assert query == w + [' '] + "1 FROM DUAL;";
    CommentedBeginToken(comment, w, "1 FROM DUAL;");
    assert |ToUpper(w)| == 6 && ToUpper(w)[0] == 'S';
    var clean := comment + ['\n'] + query;
    assert Classify(clean) == Simple;
    assert EndsWith(clean, ';');
    DropLastOfConcat(comment + ['\n'], query);
  }

  /** A stored procedure is procedural: it starts with CREATE and mentions PROCEDURE. */
  lemma CreateProcedure(mid: String, tail: String)
    requires mid == "OR REPLACE " && tail == " p IS BEGIN NULL; END;"
    ensures Normalize("CREATE " + mid + "PROCEDURE" + tail) == Statement("CREATE " + mid + "PROCEDURE" + tail, Procedural)
  {
    var word: String := "PROCEDURE";
    assert SingleLine(mid) && SingleLine(word) && SingleLine(tail);
    assert EndsWith(tail, ';');
    assert ToUpper(word) == RoutineKeywords[0];
    CreateMentioning(mid, word, tail);
  }

  /** The routine test is a substring test: a table whose name contains `packages` is
      taken for a procedural block and keeps its terminator. */
  lemma TableNamedPackages(mid: String, tail: String)
    requires mid == "TABLE " && tail == "s (id NUMBER);"
    ensures Normalize("CREATE " + mid + "package" + tail) == Statement("CREATE " + mid + "package" + tail, Procedural)
  {
    var word: String := "package";
    assert SingleLine(mid) && SingleLine(word) && SingleLine(tail);
    assert EndsWith(tail, ';');
    assert ToUpper(word) == RoutineKeywords[1];
    CreateMentioning(mid, word, tail);
  }

  /** A table definition is simple and loses its terminator: no routine keyword occurs. */
  lemma CreateTable(rest: String)
    requires rest == "TABLE t (id NUMBER);"
    ensures Normalize("CREATE " + rest) == Statement("CREATE " + rest[..|rest| - 1], Simple)
  {
    assert SingleLine(rest) && EndsWith(rest, ';');
    assert forall i :: 0 <= i < |rest| ==> UpperChar(rest[i]) != 'P' && UpperChar(rest[i]) != 'F' && UpperChar(rest[i]) != 'G';
    CreateWithoutRoutine(rest);
  }

  /** A simple statement that ends in two terminators loses one per normalisation, so
      normalising its output again changes it: `x;;` gives `x;`, which gives `x`. */
  lemma SimpleTerminatorTwice(x: String)
    requires x == "x"
    ensures Normalize(x + ";;") == Statement(x + ";", Simple)
    ensures Normalize(x + ";") == Statement(x, Simple)
  {
    SimpleOnce(x + ";;");
    SimpleOnce(x + ";");
  }

  lemma SimpleOnce(a: String)
    requires a == "x;;" || a == "x;"
    ensures Normalize(a) == Statement(a[..|a| - 1], Simple)
  {
    assert forall i :: 0 <= i < |a| ==> !IsSpace(a[i]);
    assert a[0] == 'x' && a[|a| - 1] == ';';
    assert !IsCommentStart(a);
    OneWordToken(a);
    assert ToUpper(a)[0] == 'X';
  }

  /** A bare BEGIN is a block and gains a terminator, but the terminated word is no longer
      the keyword BEGIN: normalising again reclassifies it as simple and drops the `;`. */
  lemma BeginReclassified(b: String)
    requires b == "BEGIN"
    ensures Normalize(b) == Statement(b + ";", Procedural)
    ensures Normalize(b + ";") == Statement(b, Simple)
  {
    BareBegin(b);
    TerminatedBegin(b + ";");
  }

  lemma BareBegin(b: String)
    requires b == "BEGIN"
    ensures Normalize(b) == Statement(b + ";", Procedural)
  {
    assert forall i :: 0 <= i < |b| ==> !IsSpace(b[i]);
    OneWordToken(b);
    assert ToUpper(b) == "BEGIN";
  }

  lemma TerminatedBegin(t: String)
    requires t == "BEGIN;"
    ensures Normalize(t) == Statement(t[..5], Simple)
  {
    assert forall i :: 0 <= i < |t| ==> !IsSpace(t[i]);
    OneWordToken(t);
    assert |ToUpper(t)| == 6 && ToUpper(t)[0] == 'B';
  }

  /** An error whose text starts with an ignorable code is suppressed. */
  lemma MissingTableSuppressed(message: String)
    requires message == "ORA-00942: table or view does not exist"
    ensures OutcomeOf(Err(message)) == Suppressed
  {
    assert message == [] + IgnorableCodes[0] + message[9..];
    CodeInMessageSuppressed([], 0, message[9..]);
  }

  /** A run whose only errors are suppressed succeeds, however many there are. */
  lemma SuppressedErrorsSucceed(statements: seq<String>, driver: Driver)
    requires forall i :: 0 <= i < |statements| ==>
      var r := driver(statements[..i], statements[i]); r.Err? ==> IsIgnorable(r.message)
    ensures VerdictOf(Execute(statements, driver)) == Success
  {
    ExecuteVerdict(statements, driver);
  }
}
