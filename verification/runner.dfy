/**
  The whole statement pipeline of the SQL runner: split the script at delimiter
  lines, strip each fragment, skip the blank ones, classify and normalise the rest,
  execute them in order on one connection and fold the outcomes into the run's
  verdict.
 */
module Runner {
  import opened Text
  import opened Splitter
  import opened Classifier
  import opened Executor

  /** What one raw fragment contributes: nothing when it is blank after stripping,
      otherwise its normalised statement. A fragment is blank exactly when it is all
      whitespace. */
  function StatementOf(fragment: String): (statements: seq<Statement>)
    ensures |statements| <= 1
    ensures statements == [] <==> AllSpace(fragment)
  {
    StripShape(fragment);
    var clean := Strip(fragment);
    if clean == [] then [] else [Normalize(clean)]
  }

  /** The statements of a list of fragments, in fragment order. */
  function Prepare(fragments: seq<String>): (statements: seq<Statement>)
    ensures |statements| <= |fragments|
  {
    if fragments == [] then []
    else StatementOf(fragments[0]) + Prepare(fragments[1..])
  }

  /** A non-empty sequence is its front followed by its last element. */
  lemma FrontLast<T>(s: seq<T>, n: int)
    requires 0 <= n < |s|
    ensures s[..n + 1] == s[..n] + [s[n]]
  {
  }

  /** One more fragment at the end adds what that fragment yields, at the end. */
  lemma {:induction false} PrepareSnoc(fragments: seq<String>, last: String)
    ensures Prepare(fragments + [last]) == Prepare(fragments) + StatementOf(last)
  {
    var all := fragments + [last];
    if fragments != [] {
      assert all[0] == fragments[0] && all[1..] == fragments[1..] + [last];
      PrepareSnoc(fragments[1..], last);
      assert Prepare(all) == StatementOf(fragments[0]) + Prepare(all[1..]);
    } else {
      assert all == [last] && all[1..] == [];
    }
  }

  /** The indices of the fragments that are not blank after stripping, in increasing order. */
  function NonBlank(fragments: seq<String>): (ix: seq<nat>)
    ensures forall k :: 0 <= k < |ix| ==> ix[k] < |fragments| && Strip(fragments[ix[k]]) != []
    ensures forall k, l :: 0 <= k < l < |ix| ==> ix[k] < ix[l]
  {
    if fragments == [] then []
    else
      var n := |fragments| - 1;
      var front := NonBlank(fragments[..n]);
      assert forall k :: 0 <= k < |front| ==> fragments[front[k]] == fragments[..n][front[k]];
      front + (if Strip(fragments[n]) == [] then [] else [n])
  }

  /** No fragment that is non-blank after stripping is left out. */
  lemma {:induction false} NonBlankComplete(fragments: seq<String>, j: int)
    requires 0 <= j < |fragments| && Strip(fragments[j]) != []
    ensures j in NonBlank(fragments)
  {
    var n := |fragments| - 1;
    if j < n {
      assert fragments[..n][j] == fragments[j];
      NonBlankComplete(fragments[..n], j);
    }
  }

  /** Exactly the non-blank fragments become statements, one each, in their order. */
  lemma {:induction false} PrepareFollowsNonBlank(fragments: seq<String>)
    ensures |Prepare(fragments)| == |NonBlank(fragments)|
    ensures forall k :: 0 <= k < |Prepare(fragments)| ==>
      Prepare(fragments)[k] == Normalize(Strip(fragments[NonBlank(fragments)[k]]))
  {
    if fragments != [] {
      var n := |fragments| - 1;
      PrepareFollowsNonBlank(fragments[..n]);
      var front := NonBlank(fragments[..n]);
      var before := Prepare(fragments[..n]);
      var all := Prepare(fragments);
      var ix := NonBlank(fragments);
      assert all == before + StatementOf(fragments[n]) by {
        FrontLast(fragments, n);
        assert fragments[..n + 1] == fragments;
        PrepareSnoc(fragments[..n], fragments[n]);
      }
      assert ix == front + (if Strip(fragments[n]) == [] then [] else [n]);
      forall k | 0 <= k < |all|
        ensures all[k] == Normalize(Strip(fragments[ix[k]]))
      {
        if k < |before| {
          assert all[k] == before[k];
          assert ix[k] == front[k];
          assert fragments[front[k]] == fragments[..n][front[k]];
        } else {
          assert ix[k] == n;
        }
      }
    }
  }

  /** The statement texts handed to the driver. */
  function Texts(statements: seq<Statement>): (texts: seq<String>)
    ensures |texts| == |statements|
    ensures forall k :: 0 <= k < |statements| ==> texts[k] == statements[k].text
  {
    seq(|statements|, k requires 0 <= k < |statements| => statements[k].text)
  }

  lemma TextsAppend(a: seq<Statement>, b: seq<Statement>)
    ensures Texts(a + b) == Texts(a) + Texts(b)
  {
  }

  /** One more fragment adds what that fragment yields, at the end. */
  lemma PrepareStep(fragments: seq<String>, i: int)
    requires 0 <= i < |fragments|
    ensures Texts(Prepare(fragments[..i + 1])) == Texts(Prepare(fragments[..i])) + Texts(StatementOf(fragments[i]))
  {
    FrontLast(fragments, i);
    PrepareSnoc(fragments[..i], fragments[i]);
    TextsAppend(Prepare(fragments[..i]), StatementOf(fragments[i]));
  }

  /** The statements a script yields. */
  function Statements(script: String): (statements: seq<Statement>)
  {
    Prepare(Split(script))
  }

  /** Executing the prepared statements of a list of fragments: one attempt per non-blank
      fragment, in order, on its normalised text, and a failed run exactly when the driver
      raised an error that is not ignorable for one of them. */
  lemma PreparedRun(fragments: seq<String>, driver: Driver)
    ensures |Execute(Texts(Prepare(fragments)), driver)| == |NonBlank(fragments)|
    ensures forall k :: 0 <= k < |NonBlank(fragments)| ==>
      Execute(Texts(Prepare(fragments)), driver)[k].statement == Normalize(Strip(fragments[NonBlank(fragments)[k]])).text
    ensures var texts := Texts(Prepare(fragments));
      VerdictOf(Execute(texts, driver)) == Failure <==>
        exists k :: 0 <= k < |texts| && driver(texts[..k], texts[k]).Err? && !IsIgnorable(driver(texts[..k], texts[k]).message)
  {
    PrepareFollowsNonBlank(fragments);
    ExecuteVerdict(Texts(Prepare(fragments)), driver);
  }

  /** The runner's main loop over the raw fragments. Each fragment is stripped and
      skipped when blank; otherwise it is classified, normalised and executed; an error
      is suppressed when its text holds an ignorable code and sets the sticky error flag
      otherwise. The loop never stops early, and the verdict is the flag at the end. */
  method RunFragments(commands: seq<String>, driver: Driver) returns (trace: seq<Attempt>, verdict: Verdict)
    ensures trace == Execute(Texts(Prepare(commands)), driver)
    ensures verdict == Failure <==> exists k :: 0 <= k < |trace| && trace[k].outcome == Failed
  {
    var executed: seq<String> := [];
    var hasError := false;
    trace := [];
    var i := 0;
    assert commands[..0] == [];
    while i < |commands|
      invariant 0 <= i <= |commands|
      invariant executed == Texts(Prepare(commands[..i]))
      invariant trace == Execute(executed, driver)
      invariant hasError == HasError(false, trace)
    {
      PrepareStep(commands, i);
      var clean := Strip(commands[i]);
      if clean != [] {
        var statement := Normalize(clean);
        assert Texts(StatementOf(commands[i])) == [statement.text];
        var result := driver(executed, statement.text);
        var outcome: Outcome;
        match result {
          case Ok =>
            outcome := Succeeded;
          case Err(message) =>
            IsIgnorableIff(message);
            if IsIgnorable(message) {
              outcome := Suppressed;
            } else {
              outcome := Failed;
              hasError := true;
            }
        }
        ExecuteSnoc(executed, statement.text, driver);
        HasErrorSnoc(false, trace, Attempt(statement.text, result, outcome));
        trace := trace + [Attempt(statement.text, result, outcome)];
        executed := executed + [statement.text];
      } else {
        assert Texts(StatementOf(commands[i])) == [];
        assert executed + [] == executed;
      }
      i := i + 1;
    }
    assert commands[..|commands|] == commands;
    verdict := if hasError then Failure else Success;
    HasErrorIff(false, trace);
  }

  /** The whole run of a script: every non-blank fragment of the split is executed
      exactly once, in order, as its normalised text, and the run fails exactly when
      some execution raised an error that is not ignorable. */
  method RunScript(script: String, driver: Driver) returns (trace: seq<Attempt>, verdict: Verdict)
    ensures trace == Execute(Texts(Statements(script)), driver)
    ensures |trace| == |NonBlank(Split(script))|
    ensures forall k :: 0 <= k < |trace| ==>
      trace[k].statement == Normalize(Strip(Split(script)[NonBlank(Split(script))[k]])).text
    ensures var texts := Texts(Statements(script));
      verdict == Failure <==>
        exists k :: 0 <= k < |texts| && driver(texts[..k], texts[k]).Err? && !IsIgnorable(driver(texts[..k], texts[k]).message)
  {
    var commands := Split(script);
    trace, verdict := RunFragments(commands, driver);
    PreparedRun(commands, driver);
  }
}
