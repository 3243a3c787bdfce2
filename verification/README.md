# SQL script runner: statement pipeline

A Dafny model of the statement pipeline of `script/sql_runner.py`, the runner that
feeds an Oracle SQL script to the database one statement at a time. The pipeline
has three stages:

1. **Splitter.** The script is cut at every *delimiter line*, a line holding one `/`
   and otherwise only whitespace. The cut is line-anchored, so a `/` that shares a
   line with other text (a path literal such as `'/data'`) never splits.
2. **Classifier and normaliser.** Each fragment is stripped, and blank fragments
   are skipped. The *lead token* is the upper-cased first word of the first line
   that is neither blank nor a `--` comment. The fragment is a procedural (PL/SQL)
   block when that token is `DECLARE` or `BEGIN`. It is also one when the token is
   `CREATE` and the upper-cased fragment contains `PROCEDURE`, `PACKAGE`,
   `FUNCTION` or `TRIGGER` anywhere. A block gets a trailing `;` if it lacks one.
   A simple statement loses exactly one trailing `;`.
3. **Executor and error classifier.** Statements are executed in order on one
   connection. An error whose text contains `ORA-00942`, `ORA-02289`, `ORA-04043`
   or `ORA-00955` is suppressed. Any other error sets a sticky error flag. A
   database error never stops the loop, and the run fails exactly when the flag is
   set at the end. (An exception of any other kind ends the whole run; see
   "## Left out".)

Modules, one per file:

- `Text` (`text.dfy`): the Python string operations the runner relies on, on
  `seq<char>`: the whitespace set of `isspace` (which `strip()`, `split()` and the
  pattern's `\s` use), `strip`, `splitlines`, `split()[0]`, `upper`,
  `startswith`, `endswith`, and the substring test `in`. It also has `SplitOn`
  (cut at every `'\n'`) and `Join`, which the runner never calls: they are the
  model's view of the script as the `'\n'`-separated lines that the MULTILINE
  pattern's `^` and `$` anchor to. The two line views differ: `splitlines()` also
  ends a line at `"\r\n"`, a lone `'\r'`, `\x0b`, `\x0c`, `\x1c`-`\x1e`, `\x85`,
  `\u2028` and `\u2029`, so those end a line for the lead-token scan but not for
  the delimiter pattern.
- `Splitter` (`splitter.dfy`): the delimiter-line split.
- `Classifier` (`classifier.dfy`): lead token, classification, terminator
  normalisation.
- `Executor` (`executor.dfy`): outcomes of driver results, the ordered execution,
  the sticky flag and the verdict.
- `Runner` (`runner.dfy`): the runner's main loop (`RunFragments`, `RunScript`),
  tying the three stages together.
- `Scenarios` (`scenarios.dfy`): concrete fragments with the outcome the runner
  gives them.

The database connection is a parameter, the *driver*: a function from the
statements already executed on the session, and the next statement, to `Ok` or
`Err(message)`. A fixed list of per-statement results is the special case of a
driver that looks only at how many statements came before it
(`Executor.FixedResultsVerdict`).

Properties of the code worth knowing, each stated by a lemma:

- Normalisation is not idempotent.
  - A simple statement loses one `;` per pass, so `x;;` becomes `x;` and then `x`
    (`Scenarios.SimpleTerminatorTwice`; in general
    `Classifier.DropTerminatorIdempotentIff`).
  - A bare `BEGIN` becomes `BEGIN;`, whose first word is no longer the keyword
    `BEGIN`, so the next pass classifies it as simple and drops the `;` again
    (`Scenarios.BeginReclassified`).
  - Only block termination is idempotent (`Classifier.TerminateBlockIdempotent`).
- The routine-keyword test (`script/sql_runner.py` line 55) is a substring test on
  the whole upper-cased fragment, comment lines included
  (`Classifier.MentionsRoutineIff`). So a `CREATE TABLE` whose table name contains
  `packages` is treated as a block (`Scenarios.TableNamedPackages`).
- The ignorable-error test (line 73) is a substring test on the whole error text
  (`Executor.IsIgnorableIff`, `Executor.CodeInMessageSuppressed`).

## Model

| member | source | states |
|---|---|---|
| Splitter.IsDelimiterLine | script/sql_runner.py:31 | the line matches `^\s*/\s*$`; its contract is `DelimiterLineShape`, the next row |
| Splitter.DelimiterLineShape | script/sql_runner.py:31 | a line is a delimiter line exactly when it is whitespace, one `/`, whitespace (the per-line reading of `^\s*/\s*$`) |
| Splitter.InlineSlashIsNotDelimiter | script/sql_runner.py:31 | a line holding any non-whitespace character other than `/` is never a delimiter line, whatever `/` it contains |
| Splitter.Split | script/sql_runner.py:31 | a script with N delimiter lines is cut into N + 1 raw fragments, empty ones included |
| Splitter.FragmentsHaveNoDelimiterLine | script/sql_runner.py:31 | no line of any fragment is a delimiter line |
| Splitter.GroupRebuild | script/sql_runner.py:31 | putting the delimiter lines back between the groups of lines rebuilds the script's lines: nothing is lost or reordered |
| Splitter.GroupKeepsOrder | script/sql_runner.py:31 | the non-delimiter lines appear in the groups exactly once each, in script order |
| Splitter.NoDelimiterNoSplit | script/sql_runner.py:31 | a script without a delimiter line is a single fragment equal to the script |
| Scenarios.CarriageReturnLineViews | script/sql_runner.py:31-39 | in `a\rb` the lone `\r` ends a line for `splitlines()` (two lines) but not for the delimiter pattern (one line) |
| Scenarios.PathLiteralDoesNotSplit | script/sql_runner.py:31 | `SELECT '/data' FROM dual` is one fragment: the inline `/` does not split |
| Text.Strip | script/sql_runner.py:35 | the stripped text has no whitespace at either end |
| Text.StripShape | script/sql_runner.py:35-36 | the stripped text is a contiguous piece of the input with only whitespace around it; it is empty exactly when the input is all whitespace (the skip test) |
| Text.StripUnique | script/sql_runner.py:35 | whitespace, then a stripped core, then whitespace: strip returns exactly that core |
| Text.SplitLines | script/sql_runner.py:39 | no line holds a line break, and there are no lines exactly for the empty text; `SplitLinesCons` (every boundary) and `SplitLinesOneLine` (the last line) pin the lines |
| Text.SplitLinesAsSplitOn | script/sql_runner.py:39 | on text whose only line breaks are `\n` and that does not end with one, `splitlines()` gives the same lines as `split('\n')` |
| Text.SplitLinesCons | script/sql_runner.py:39 | a line ended by any `splitlines()` boundary (`"\r\n"` as one, a lone `'\r'` not followed by `'\n'`, or one of the other break characters) comes off the front of `splitlines()` unchanged |
| Text.SplitLinesOneLine | script/sql_runner.py:39 | a non-empty text with no break character is a single line |
| Text.FirstWord | script/sql_runner.py:46 | the first word is a prefix of the line without whitespace, ended by whitespace or the end of the line |
| Text.ContainsIffOccurs | script/sql_runner.py:55 | the substring test holds exactly when the needle occurs at some position, in both directions |
| Classifier.LeadTokenOf | script/sql_runner.py:40-47 | the token is empty exactly when every line is blank or a comment |
| Classifier.LeadToken | script/sql_runner.py:39-47 | the lead token of a stripped fragment; its contract is `LeadTokenIsFirstCodeLine`, the next row |
| Classifier.LeadTokenIsFirstCodeLine | script/sql_runner.py:41-47 | the lead token is the upper-cased first word of the first line that is neither blank nor a `--` comment, and empty when there is no such line |
| Classifier.CommentLineIgnored | script/sql_runner.py:39-45 | a comment line in front of a fragment, ended by any line boundary, does not change its lead token |
| Classifier.CommentedKeywordIgnored | script/sql_runner.py:44-56 | a keyword on a comment line does not by itself change the classification when the code below does not start with CREATE |
| Classifier.FirstLineToken | script/sql_runner.py:39-47 | when the first line holds code, the lines after its boundary play no part in the lead token |
| Classifier.WordLineToken | script/sql_runner.py:46 | on a one-line fragment `word rest`, the lead token is the word upper-cased |
| Classifier.Classify | script/sql_runner.py:50-56 | only the lead tokens DECLARE, BEGIN and CREATE can give a block; DECLARE and BEGIN always do; CREATE does exactly when a routine keyword occurs at some position of the upper-cased text |
| Classifier.ClassifyRule | script/sql_runner.py:50-56 | procedural exactly when the first code line starts with DECLARE or BEGIN, or starts with CREATE while a routine keyword occurs somewhere in the upper-cased text |
| Classifier.MentionsRoutineIff | script/sql_runner.py:55 | the four-way substring test holds exactly when one of PROCEDURE, PACKAGE, FUNCTION, TRIGGER occurs at some position |
| Classifier.MentionsKeyword | script/sql_runner.py:54-55 | a word that upper-cases to a routine keyword counts wherever it appears, in any letter case |
| Classifier.CreateLine | script/sql_runner.py:53-56 | a one-line CREATE statement is procedural exactly when the substring test finds a routine keyword |
| Classifier.CreateMentioning | script/sql_runner.py:53-62 | a one-line CREATE statement mentioning a routine keyword and ending in `;` is a block and is left unchanged |
| Classifier.CreateWithoutRoutine | script/sql_runner.py:53-66 | a one-line CREATE statement with no P, F or G in its upper-cased text is simple and loses its one trailing `;` |
| Classifier.TerminateBlock | script/sql_runner.py:59-62 | the result begins with the input and ends with `;`, is the input when the input already ends with `;`, and is at most one character longer |
| Classifier.TerminateBlockIdempotent | script/sql_runner.py:59-62 | terminating a block twice gives the same text as terminating it once |
| Classifier.DropTerminator | script/sql_runner.py:63-66 | the result is a prefix of the input at most one shorter, and strictly shorter exactly when the input ends with `;` |
| Classifier.DropTerminatorIdempotentIff | script/sql_runner.py:63-66 | dropping the terminator again changes nothing exactly when the input does not end with `;;` |
| Classifier.Normalize | script/sql_runner.py:58-66 | the statement has the fragment's kind; a block extends the fragment by at most a `;` and always ends with `;`, unchanged when it already did; a simple statement is a prefix of the fragment, shorter by one exactly when the fragment ended with `;` |
| Classifier.NormalizedTerminator | script/sql_runner.py:58-66 | a normalised block ends with `;`; a normalised simple statement ends with `;` exactly when the fragment ended with `;;` |
| Classifier.NormalizeFixedPoint | script/sql_runner.py:58-66 | normalisation leaves the text unchanged exactly for a block ending in `;` or a simple statement not ending in `;` |
| Scenarios.BeginBlock | script/sql_runner.py:39-62 | `BEGIN` / `NULL;` / `END;` is a block and keeps its single terminator |
| Scenarios.CommentedBegin | script/sql_runner.py:39-66 | a `-- BEGIN test` comment above `SELECT 1 FROM DUAL;` leaves it simple, and its `;` is dropped |
| Scenarios.CreateProcedure | script/sql_runner.py:53-62 | `CREATE OR REPLACE PROCEDURE p IS BEGIN NULL; END;` is a block |
| Scenarios.CreateTable | script/sql_runner.py:53-66 | `CREATE TABLE t (id NUMBER);` is simple and loses its `;` |
| Scenarios.TableNamedPackages | script/sql_runner.py:53-62 | `CREATE TABLE packages (id NUMBER);` is a block, because the routine test is a substring test |
| Scenarios.SimpleTerminatorTwice | script/sql_runner.py:63-66 | `x;;` normalises to `x;` and that to `x`: simple normalisation is not idempotent |
| Scenarios.BeginReclassified | script/sql_runner.py:46-66 | `BEGIN` normalises to the block `BEGIN;`, which normalises back to the simple `BEGIN` |
| Executor.IsIgnorable | script/sql_runner.py:73 | the four substring tests on the error text; its contract is `IsIgnorableIff`, the next row |
| Executor.IsIgnorableIff | script/sql_runner.py:71-73 | an error is ignorable exactly when one of the four codes occurs somewhere in its text |
| Executor.CodeInMessageSuppressed | script/sql_runner.py:71-74 | an error whose text embeds an ignorable code anywhere is suppressed |
| Executor.OutcomeOf | script/sql_runner.py:68-78 | success exactly for `Ok`; failure exactly for an error whose text holds none of the four codes |
| Executor.Execute | script/sql_runner.py:34-69 | every statement is attempted once, in order; the i-th is run on a session that has executed exactly the ones before it |
| Executor.HasError | script/sql_runner.py:18-78 | the flag over a run: a flag that starts set is still set at the end (it is never cleared) |
| Executor.HasErrorAppend | script/sql_runner.py:34-78 | running the flag over two stretches of a run is running it over the first, then over the second from where it stood |
| Executor.ErrorIsSticky | script/sql_runner.py:18-78 | once the error flag is set at some point of the run, it is still set at the end |
| Executor.HasErrorIff | script/sql_runner.py:18-78 | the flag ends up set exactly when it started set or some attempt failed |
| Executor.HasErrorSnoc | script/sql_runner.py:73-78 | after one more attempt the flag is the earlier flag or that attempt's failure |
| Executor.VerdictOf | script/sql_runner.py:80-84 | the run fails exactly when some attempt failed; suppressed errors never count |
| Executor.ExecuteVerdict | script/sql_runner.py:68-84 | over a whole execution, the run fails exactly when the driver raised a non-ignorable error for some statement |
| Executor.FixedResultsVerdict | script/sql_runner.py:68-84 | with a driver that replays a fixed list of results, one per statement, the run fails exactly when one listed error is not ignorable |
| Executor.PartialFailureContinues | script/sql_runner.py:68-84 | when the second of three statements fails, the third is still attempted after the other two, and the run fails |
| Scenarios.MissingTableSuppressed | script/sql_runner.py:70-74 | `ORA-00942: table or view does not exist` is suppressed |
| Scenarios.SuppressedErrorsSucceed | script/sql_runner.py:68-84 | a run whose only errors are ignorable succeeds |
| Runner.StatementOf | script/sql_runner.py:35-36 | a fragment yields at most one statement, and none exactly when it is all whitespace |
| Runner.Prepare | script/sql_runner.py:34-36 | at most one statement per fragment; `PrepareSnoc` and `PrepareFollowsNonBlank` pin which and in what order |
| Runner.NonBlank | script/sql_runner.py:34-36 | the kept fragment indices are increasing and each names a fragment that is not blank after strip |
| Runner.NonBlankComplete | script/sql_runner.py:34-36 | every fragment that is not blank after strip is kept |
| Runner.PrepareSnoc | script/sql_runner.py:34-36 | one more fragment at the end of the script adds exactly what that fragment yields, after all earlier statements |
| Runner.PrepareFollowsNonBlank | script/sql_runner.py:34-66 | the k-th statement is the normalisation of the k-th non-blank fragment, and there is one statement per non-blank fragment |
| Runner.PreparedRun | script/sql_runner.py:34-84 | executing the prepared statements gives one attempt per non-blank fragment, in order, on its normalised text, and fails exactly when the driver raised a non-ignorable error for one of them |
| Runner.RunFragments | script/sql_runner.py:34-84 | the loop's attempts are the ordered execution of the prepared statements; the verdict is failure exactly when some attempt failed |
| Runner.RunScript | script/sql_runner.py:31-84 | one attempt per non-blank fragment, in order, on its normalised text; the run fails exactly when the driver raised a non-ignorable error for one of them |

## Left out

- The `oracledb` connect, cursor and close calls, and the `finally` cleanup (lines
  20-23, 90-91): foreign driver code. The connection is the `Driver` parameter.
- The configuration, command-line and file handling (lines 6-16, 25-27): this is
  I/O. The script text is a parameter.
- The progress and error printing, including the first 50 characters of the
  failing statement (lines 16, 76-77, 81, 84, 87): this is output only.
- The exit statuses (lines 13, 82, 88): process plumbing. The exit status of a
  completed run is 1 exactly when the `Verdict` is `Failure`.
- The outer `except Exception` path (lines 86-88). The whole loop sits inside
  the `try` at line 20, and the handler at line 70 catches only `oracledb.Error`.
  Any other exception raised during an iteration ends the run there: the
  remaining statements are never attempted and the process exits with 1. Examples
  are a non-database exception from `execute`, or a `UnicodeEncodeError` from the
  print at line 76 when the output is not UTF-8. The model assumes that `execute`
  raises only `oracledb.Error`, which is `Err(message)`, and that printing never
  raises. Connection and file-read failures before the loop also end here.
- The error text is `str(e)`. The model takes it as the driver's `message`.
- Splitter.Split: cuts at line boundaries and drops exactly the delimiter lines.
  The runner's pattern is a regular expression whose `\s*` may also take
  whitespace-only lines next to a delimiter line into the match. Its raw
  fragments can therefore differ from the model's by whitespace at their ends,
  which the strip removes. No regular-expression engine is modelled.
- Text.ToUpper: maps the ASCII letters only. Python's `upper()` also maps other
  letters, some of them onto ASCII (dotless `ı` to `I`, long `ſ` to `S`), or into
  several characters (`ß` to `SS`). A fragment that spells a keyword with such
  letters is classified differently by the runner.
- `script/generate_data.py`: random test-data generation with no deterministic
  behaviour to state.
