/**
 * The driver loop of `tools/lint_sigma.py`: every rule file is validated, one
 * error is collected per rejected file without stopping, and the exit status
 * is 1 when anything was collected. A `TypeError` from a check is not caught
 * there and ends the run.
 */
module Lint {
  import opened Sigma

  /** `str(exc)` of a `ValidationError`: the file it names and what was wrong. */
  datatype Report = Report(path: string, problem: Problem)

  /** How `main` ends: it returns an exit status, or an exception escapes it. */
  datatype Outcome = Returned(code: int) | Crashed

  /** One rule file: its path (for the message) and what the loader made of it. */
  datatype RuleFile = RuleFile(path: string, input: Loaded)

  /** The error one file contributes: its report when it is rejected, nothing otherwise. */
  function Entry(f: RuleFile): seq<Report>
  {
    var v := Validate(f.input);
    if v.Rejected? then [Report(f.path, v.problem)] else []
  }

  /** The errors collected for `files`, one per rejected file, in file order. */
  function Reports(files: seq<RuleFile>): seq<Report>
  {
    if files == [] then [] else Entry(files[0]) + Reports(files[1..])
  }

  /** Some file makes a check raise `TypeError`. */
  predicate AnyRaises(files: seq<RuleFile>)
  {
    exists i :: 0 <= i < |files| && Validate(files[i].input) == Raised
  }

  /** `main` over the files the glob found, in sorted order. */
  method LintAll(files: seq<RuleFile>) returns (outcome: Outcome, errors: seq<Report>)
    ensures outcome == Crashed <==> AnyRaises(files)
    ensures !AnyRaises(files) ==> errors == Reports(files)
    ensures outcome.Returned? ==> outcome.code == (if errors == [] then 0 else 1)
    ensures outcome.Returned? ==>
      (outcome.code == 1 <==> exists i :: 0 <= i < |files| && Validate(files[i].input).Rejected?) &&
      (outcome.code == 0 <==> forall i :: 0 <= i < |files| ==> Validate(files[i].input) == Accepted)
  {
    errors := [];
    var k := 0;
    while k < |files|
      invariant 0 <= k <= |files|
      invariant errors == Reports(files[..k])
      invariant !AnyRaises(files[..k])
    {
      var verdict := Validate(files[k].input);
      if verdict == Raised {
        assert 0 <= k < |files| && Validate(files[k].input) == Raised;
        return Crashed, errors;
      }
      if verdict.Rejected? {
        errors := errors + [Report(files[k].path, verdict.problem)];
      }
      ReportsSnoc(files[..k], files[k]);
      assert files[..k + 1] == files[..k] + [files[k]];
      k := k + 1;
    }
    assert files[..k] == files;
    ExitStatus(files);
    if errors != [] {
      return Returned(1), errors;
    }
    return Returned(0), errors;
  }

  /** Collecting over one more file appends that file's error, if it has one. */
  lemma {:induction false} ReportsSnoc(files: seq<RuleFile>, f: RuleFile)
    ensures Reports(files + [f]) == Reports(files) + Entry(f)
  {
    var t := files + [f];
    if files == [] {
      assert t == [f] && t[1..] == [];
    } else {
      assert t[0] == files[0] && t[1..] == files[1..] + [f];
      ReportsSnoc(files[1..], f);
      calc {
        Reports(t);
        Entry(files[0]) + Reports(files[1..] + [f]);
        Entry(files[0]) + (Reports(files[1..]) + Entry(f));
        (Entry(files[0]) + Reports(files[1..])) + Entry(f);
      }
    }
  }

  /** An error is collected exactly for each rejected file, naming that file and its problem. */
  lemma {:induction false} ReportsExact(files: seq<RuleFile>)
    ensures |Reports(files)| <= |files|
    ensures forall r :: r in Reports(files) <==>
      exists i :: 0 <= i < |files| && Validate(files[i].input) == Rejected(r.problem) && files[i].path == r.path
  {
    if files != [] {
      ReportsExact(files[1..]);
      forall r: Report | r in Reports(files)
        ensures exists i :: 0 <= i < |files| && Validate(files[i].input) == Rejected(r.problem) && files[i].path == r.path
      {
        if r !in Reports(files[1..]) {
          assert Validate(files[0].input) == Rejected(r.problem) && files[0].path == r.path;
        } else {
          var i :| 0 <= i < |files[1..]| && Validate(files[1..][i].input) == Rejected(r.problem) && files[1..][i].path == r.path;
          assert files[i + 1] == files[1..][i];
        }
      }
      forall r: Report | exists i :: 0 <= i < |files| && Validate(files[i].input) == Rejected(r.problem) && files[i].path == r.path
        ensures r in Reports(files)
      {
        var i :| 0 <= i < |files| && Validate(files[i].input) == Rejected(r.problem) && files[i].path == r.path;
        if i > 0 {
          assert files[1..][i - 1] == files[i];
        }
      }
    }
  }

  /** Nothing is collected exactly when no file is rejected. */
  lemma {:induction false} ReportsEmpty(files: seq<RuleFile>)
    ensures Reports(files) == [] <==> forall i :: 0 <= i < |files| ==> !Validate(files[i].input).Rejected?
  {
    if files != [] {
      ReportsEmpty(files[1..]);
      if forall i :: 0 <= i < |files[1..]| ==> !Validate(files[1..][i].input).Rejected? {
        forall i | 1 <= i < |files|
          ensures !Validate(files[i].input).Rejected?
        {
          assert files[i] == files[1..][i - 1];
        }
      }
    }
  }

  /**
   * When no file raises, something is collected exactly when some file is
   * rejected, and nothing exactly when every file is accepted.
   */
  lemma ExitStatus(files: seq<RuleFile>)
    requires !AnyRaises(files)
    ensures Reports(files) != [] <==> exists i :: 0 <= i < |files| && Validate(files[i].input).Rejected?
    ensures Reports(files) == [] <==> forall i :: 0 <= i < |files| ==> Validate(files[i].input) == Accepted
  {
    ReportsEmpty(files);
    forall i | 0 <= i < |files|
      ensures !Validate(files[i].input).Rejected? <==> Validate(files[i].input) == Accepted
    {
      assert Validate(files[i].input) != Raised;
    }
  }
}
