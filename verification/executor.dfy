/**
  The executor and its error classifier. The database connection is modelled as a
  driver function: given the statements the session has already executed and the
  next statement, it reports success or raises an error with a message. A failed
  statement is suppressed when its message mentions one of four ignorable Oracle
  codes; any other failure marks the whole run as failed, and the run never stops
  early.
 */
module Executor {
  import opened Text

  /** What the driver reports for one statement: success, or the text of the error it raised. */
  datatype DriverResult = Ok | Err(message: String)

  /** The connection: statements already executed on it, and the next one, to its result. */
  type Driver = (seq<String>, String) -> DriverResult

  datatype Outcome = Succeeded | Suppressed | Failed

  datatype Verdict = Success | Failure

  /** One execute attempt as the run records it. */
  datatype Attempt = Attempt(statement: String, result: DriverResult, outcome: Outcome)

  /** Table or view, sequence, object, and name-already-used errors: the codes that
      idempotent setup and cleanup scripts expect. */
  const IgnorableCodes: seq<String> := ["ORA-00942", "ORA-02289", "ORA-04043", "ORA-00955"]

  /** The runner's test on the error text: a plain substring search for each code. */
  predicate IsIgnorable(message: String)
  {
    || Contains(message, "ORA-00942") || Contains(message, "ORA-02289")
    || Contains(message, "ORA-04043") || Contains(message, "ORA-00955")
  }

  /** An error is ignorable exactly when one of the codes occurs anywhere in its text. */
  lemma IsIgnorableIff(message: String)
    ensures IsIgnorable(message) <==> exists k, p :: 0 <= k < |IgnorableCodes| && OccursAt(message, IgnorableCodes[k], p)
  {
    ContainsIffOccurs(message, IgnorableCodes[0]);
    ContainsIffOccurs(message, IgnorableCodes[1]);
    ContainsIffOccurs(message, IgnorableCodes[2]);
    ContainsIffOccurs(message, IgnorableCodes[3]);
  }

  /** An error whose text embeds one of the codes, anywhere, is suppressed. */
  lemma CodeInMessageSuppressed(p: String, k: int, q: String)
    requires 0 <= k < |IgnorableCodes|
    ensures OutcomeOf(Err(p + IgnorableCodes[k] + q)) == Suppressed
  {
    ContainsInfix(p, IgnorableCodes[k], q);
  }

  /** The three terminal states of one statement. */
  function OutcomeOf(result: DriverResult): (outcome: Outcome)
    ensures outcome == Succeeded <==> result == Ok
    ensures outcome == Failed <==>
      (result.Err? && forall k, p :: 0 <= k < |IgnorableCodes| ==> !OccursAt(result.message, IgnorableCodes[k], p))
  {
    match result
    case Ok => Succeeded
    case Err(message) =>
      IsIgnorableIff(message);
      if IsIgnorable(message) then Suppressed else Failed
  }

  /** The history before the `i`-th pending statement, seen from one statement later. */
  lemma HistoryShift(done: seq<String>, pending: seq<String>, i: int)
    requires 0 < i <= |pending|
    ensures (done + [pending[0]]) + pending[1..][..i - 1] == done + pending[..i]
  {
    assert pending[..i] == [pending[0]] + pending[1..][..i - 1];
  }

  /** Runs `pending`, in order, on a session that has already executed `done`. */
  function RunFrom(done: seq<String>, pending: seq<String>, driver: Driver): (trace: seq<Attempt>)
    ensures |trace| == |pending|
    ensures forall i :: 0 <= i < |pending| ==>
      && trace[i].statement == pending[i]
      && trace[i].result == driver(done + pending[..i], pending[i])
      && trace[i].outcome == OutcomeOf(trace[i].result)
    decreases |pending|
  {
    if pending == [] then []
    else
      var result := driver(done, pending[0]);
      var rest := RunFrom(done + [pending[0]], pending[1..], driver);
      var trace := [Attempt(pending[0], result, OutcomeOf(result))] + rest;
      assert forall i :: 0 <= i < |pending| ==> trace[i].result == driver(done + pending[..i], pending[i]) by {
        forall i | 0 <= i < |pending|
          ensures trace[i].result == driver(done + pending[..i], pending[i])
        {
          if i == 0 {
            assert done + pending[..0] == done;
          } else {
            HistoryShift(done, pending, i);
          }
        }
      }
      trace
  }

  /** Every statement is attempted exactly once, in order, each after all the earlier
      ones, whether or not they failed. */
  function Execute(statements: seq<String>, driver: Driver): (trace: seq<Attempt>)
    ensures |trace| == |statements|
    ensures forall i :: 0 <= i < |statements| ==>
      && trace[i].statement == statements[i]
      && trace[i].result == driver(statements[..i], statements[i])
      && trace[i].outcome == OutcomeOf(trace[i].result)
  {
    var trace := RunFrom([], statements, driver);
    assert forall i :: 0 <= i <= |statements| ==> [] + statements[..i] == statements[..i];
    trace
  }

  /** The runner's sticky `has_error` flag: set by a failed outcome, never cleared. */
  function HasError(hasError: bool, trace: seq<Attempt>): (flag: bool)
    ensures hasError ==> flag
    decreases |trace|
  {
    if trace == [] then hasError
    else HasError(hasError || trace[0].outcome == Failed, trace[1..])
  }

  /** The verdict at the end of a run: it fails exactly when some attempt failed;
      suppressed errors never count. */
  function VerdictOf(trace: seq<Attempt>): (verdict: Verdict)
    ensures verdict == Failure <==> exists i :: 0 <= i < |trace| && trace[i].outcome == Failed
  {
    HasErrorIff(false, trace);
    if HasError(false, trace) then Failure else Success
  }

  /** Running the flag over two stretches of a run is running it over the first stretch,
      then over the second from where it stood. */
  lemma {:induction false} HasErrorAppend(start: bool, front: seq<Attempt>, back: seq<Attempt>)
    ensures HasError(start, front + back) == HasError(HasError(start, front), back)
    decreases |front|
  {
    if front == [] {
      assert [] + back == back;
    } else {
      assert (front + back)[1..] == front[1..] + back;
      HasErrorAppend(start || front[0].outcome == Failed, front[1..], back);
    }
  }

  /** Once set at some point of the run, the flag is still set at the end. */
  lemma ErrorIsSticky(start: bool, front: seq<Attempt>, back: seq<Attempt>)
    ensures HasError(start, front) ==> HasError(start, front + back)
  {
    HasErrorAppend(start, front, back);
  }

  /** The flag ends up set exactly when it started set or some attempt failed. */
  lemma {:induction false} HasErrorIff(start: bool, trace: seq<Attempt>)
    ensures HasError(start, trace) <==> start || exists i :: 0 <= i < |trace| && trace[i].outcome == Failed
    decreases |trace|
  {
    if trace != [] {
      HasErrorIff(start || trace[0].outcome == Failed, trace[1..]);
      if exists i :: 0 <= i < |trace[1..]| && trace[1..][i].outcome == Failed {
        var i :| 0 <= i < |trace[1..]| && trace[1..][i].outcome == Failed;
        assert trace[i + 1].outcome == Failed;
      }
      forall i | 1 <= i < |trace| && trace[i].outcome == Failed
        ensures trace[1..][i - 1].outcome == Failed
      {
      }
    }
  }

  /** Executing one more statement appends one attempt, made after all earlier statements. */
  lemma ExecuteSnoc(statements: seq<String>, next: String, driver: Driver)
    ensures Execute(statements + [next], driver) ==
      Execute(statements, driver) + [Attempt(next, driver(statements, next), OutcomeOf(driver(statements, next)))]
  {
    var all := statements + [next];
    assert all[..|statements|] == statements;
    assert forall i :: 0 <= i < |statements| ==> all[..i] == statements[..i];
  }

  /** The flag after one more attempt is the flag before it, or that attempt's failure. */
  lemma {:induction false} HasErrorSnoc(start: bool, trace: seq<Attempt>, last: Attempt)
    ensures HasError(start, trace + [last]) == (HasError(start, trace) || last.outcome == Failed)
    decreases |trace|
  {
    if trace == [] {
      assert [] + [last] == [last];
      assert [last][1..] == [];
    } else {
      assert (trace + [last])[1..] == trace[1..] + [last];
      HasErrorSnoc(start || trace[0].outcome == Failed, trace[1..], last);
    }
  }

  /** Over a whole execution: the run fails exactly when the driver raised, for some
      statement, an error whose text holds none of the ignorable codes. */
  lemma ExecuteVerdict(statements: seq<String>, driver: Driver)
    ensures VerdictOf(Execute(statements, driver)) == Failure <==>
      exists i :: 0 <= i < |statements| && driver(statements[..i], statements[i]).Err? &&
        !IsIgnorable(driver(statements[..i], statements[i]).message)
  {
    var trace := Execute(statements, driver);
    forall i | 0 <= i < |statements|
      ensures trace[i].outcome == Failed <==>
        driver(statements[..i], statements[i]).Err? && !IsIgnorable(driver(statements[..i], statements[i]).message)
    {
      var r := driver(statements[..i], statements[i]);
      if r.Err? {
        IsIgnorableIff(r.message);
      }
    }
  }

  /** The driver that replays a fixed list of per-statement results: it looks only at how
      many statements came before, and succeeds past the end of the list. */
  function Replay(results: seq<DriverResult>): (driver: Driver)
  {
    (done: seq<String>, next: String) => if |done| < |results| then results[|done|] else Ok
  }

  /** With a fixed list of results, one per statement, the run fails exactly when one of
      the listed errors is not ignorable. */
  lemma FixedResultsVerdict(statements: seq<String>, results: seq<DriverResult>)
    requires |results| == |statements|
    ensures VerdictOf(Execute(statements, Replay(results))) == Failure <==>
      exists i :: 0 <= i < |results| && results[i].Err? && !IsIgnorable(results[i].message)
  {
    ExecuteVerdict(statements, Replay(results));
    assert forall i :: 0 <= i < |statements| ==> Replay(results)(statements[..i], statements[i]) == results[i];
  }

  /** A failure does not stop the run: with three statements of which the second fails
      with an error that is not ignorable, the third is still attempted, after the other
      two, and the run fails. */
  lemma PartialFailureContinues(statements: seq<String>, driver: Driver)
    requires |statements| == 3
    requires driver(statements[..1], statements[1]).Err?
    requires !IsIgnorable(driver(statements[..1], statements[1]).message)
    ensures |Execute(statements, driver)| == 3
    ensures Execute(statements, driver)[2].statement == statements[2]
    ensures Execute(statements, driver)[2].result == driver(statements[..2], statements[2])
    ensures VerdictOf(Execute(statements, driver)) == Failure
  {
    ExecuteVerdict(statements, driver);
  }
}
