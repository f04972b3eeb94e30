/** The start-up configuration report of `backend/src/test-env.ts`: one status
    line per required variable, a flag raised when any is missing or empty,
    and a summary. The value of the Supabase key is never printed.

    The environment is a map from names to values (a name outside its domain
    is undefined); the report is the sequence of strings handed to
    `console.log`, in order. */
module EnvCheck {
  /** The environment after `dotenv.config()`. */
  type Env = map<string, string>

  const SecretVar := "SUPABASE_KEY"

  /** `requiredEnvVars`, in the order they are reported. */
  const RequiredVars: seq<string> := ["PORT", "NODE_ENV", "SUPABASE_URL", SecretVar, "FRONTEND_URL"]

  const Cross := "\U{274C} "
  const Check := "\U{2705} "

  const Header: seq<string> := ["\nEnvironment Variables Check:", "============================\n"]
  const SummaryHeader: seq<string> := ["\nSummary:", "========\n"]
  const MissingSummary := Cross + "Some required environment variables are missing. Please check your .env file."
  const AllSetSummary := Check + "All required environment variables are properly set!"

  /** `!process.env[name]`: the variable is undefined or empty. */
  predicate Missing(env: Env, name: string)
  {
    name !in env || env[name] == ""
  }

  /** The status line of one variable. */
  function StatusLine(env: Env, name: string): (line: string)
  {
    if Missing(env, name) then Cross + name + " is missing or empty"
    else if name == SecretVar then Check + name + " is set (value hidden)"
    else Check + name + " = " + env[name]
  }

  /** The status lines of `names`, in order. */
  function StatusLines(env: Env, names: seq<string>): (lines: seq<string>)
    ensures |lines| == |names|
    ensures forall i :: 0 <= i < |names| ==> lines[i] == StatusLine(env, names[i])
  {
    if |names| == 0 then [] else [StatusLine(env, names[0])] + StatusLines(env, names[1..])
  }

  /** Some of `names` is missing. */
  predicate AnyMissing(env: Env, names: seq<string>)
  {
    exists i :: 0 <= i < |names| && Missing(env, names[i])
  }

  function Summary(missing: bool): (line: string)
  {
    if missing then MissingSummary else AllSetSummary
  }

  /** The whole report: the header, one line per required variable, the
      summary header and the summary. */
  function Report(env: Env): (lines: seq<string>)
    ensures |lines| == |RequiredVars| + 5
    ensures lines[..2] == Header && lines[7..9] == SummaryHeader
    ensures forall i :: 0 <= i < |RequiredVars| ==> lines[2 + i] == StatusLine(env, RequiredVars[i])
    ensures lines[9] == MissingSummary <==> AnyMissing(env, RequiredVars)
    ensures lines[9] == AllSetSummary <==> !AnyMissing(env, RequiredVars)
  {
    Header + StatusLines(env, RequiredVars) + SummaryHeader + [Summary(AnyMissing(env, RequiredVars))]
  }

  /** The `forEach` over `names`: their status lines, in order, and
      whether `missingVars` was set. */
  method Scan(env: Env, names: seq<string>) returns (lines: seq<string>, missingVars: bool)
    ensures lines == StatusLines(env, names)
    ensures missingVars <==> AnyMissing(env, names)
  {
    lines := [];
    missingVars := false;
    var i := 0;
    while i < |names|
      invariant 0 <= i <= |names|
      invariant lines == StatusLines(env, names[..i])
      invariant missingVars <==> AnyMissing(env, names[..i])
    {
      var name := names[i];
      StatusLinesSnoc(env, names[..i], name);
      AnyMissingSnoc(env, names[..i], name);
      assert names[..i + 1] == names[..i] + [name];
      lines := lines + [StatusLine(env, name)];
      if Missing(env, name) {
        missingVars := true;
      }
      i := i + 1;
    }
    assert names[..i] == names;
  }

  /** The script: the header, the scan of the required variables, then the
      summary that `missingVars` selects. */
  method RunCheck(env: Env) returns (lines: seq<string>, missingVars: bool)
    ensures missingVars <==> AnyMissing(env, RequiredVars)
    ensures lines == Report(env)
  {
    var status;
    status, missingVars := Scan(env, RequiredVars);
    var summary := if missingVars then MissingSummary else AllSetSummary;
    lines := Header + status + SummaryHeader + [summary];
  }

  /** Extending the scanned names by one appends its line. */
  lemma {:induction false} StatusLinesSnoc(env: Env, names: seq<string>, name: string)
    ensures StatusLines(env, names + [name]) == StatusLines(env, names) + [StatusLine(env, name)]
  {
    if |names| > 0 {
      assert (names + [name])[1..] == names[1..] + [name];
      StatusLinesSnoc(env, names[1..], name);
    }
  }

  /** Extending the scanned names by one adds that name's test to the flag. */
  lemma AnyMissingSnoc(env: Env, names: seq<string>, name: string)
    ensures AnyMissing(env, names + [name]) <==> AnyMissing(env, names) || Missing(env, name)
  {
    var ext := names + [name];
    assert ext[|names|] == name;
    assert forall i :: 0 <= i < |names| ==> ext[i] == names[i];
  }

  /** The two summaries differ, so the summary line tells whether a variable
      is missing. */
  lemma SummariesDiffer()
    ensures MissingSummary != AllSetSummary
  {
    assert MissingSummary[0] != AllSetSummary[0];
  }

  /** A variable's line reports it missing exactly when it is undefined or
      empty. */
  lemma MissingLineIff(env: Env, i: nat)
    requires i < |RequiredVars|
    ensures var name := RequiredVars[i];
            Report(env)[2 + i] == Cross + name + " is missing or empty" <==> Missing(env, name)
  {
    var name := RequiredVars[i];
    var line := Report(env)[2 + i];
    if !Missing(env, name) {
      assert line[0] != (Cross + name + " is missing or empty")[0];
    }
  }

  /** The key's value is hidden: two environments that agree everywhere
      except on the key's (non-empty) value give the same report. */
  lemma SecretHidden(env: Env, key1: string, key2: string)
    requires key1 != "" && key2 != ""
    ensures Report(env[SecretVar := key1]) == Report(env[SecretVar := key2])
  {
    var e1, e2 := env[SecretVar := key1], env[SecretVar := key2];
    forall name | name in RequiredVars
      ensures StatusLine(e1, name) == StatusLine(e2, name) && (Missing(e1, name) <==> Missing(e2, name))
    {
      SameLineUnlessSecret(e1, e2, name);
    }
    ReportsAgree(e1, e2);
  }

  /** Environments that agree on a name other than the key, or that both
      set the key, give it the same line. */
  lemma SameLineUnlessSecret(e1: Env, e2: Env, name: string)
    requires name != SecretVar ==> (name in e1 <==> name in e2) && (name in e1 ==> e1[name] == e2[name])
    requires name == SecretVar ==> !Missing(e1, name) && !Missing(e2, name)
    ensures StatusLine(e1, name) == StatusLine(e2, name)
    ensures Missing(e1, name) <==> Missing(e2, name)
  {
  }

  /** Environments whose lines and tests agree on every required variable
      give the same report. */
  lemma ReportsAgree(e1: Env, e2: Env)
    requires forall name :: name in RequiredVars ==> StatusLine(e1, name) == StatusLine(e2, name)
    requires forall name :: name in RequiredVars ==> (Missing(e1, name) <==> Missing(e2, name))
    ensures Report(e1) == Report(e2)
  {
    StatusLinesAgree(e1, e2, RequiredVars);
    assert AnyMissing(e1, RequiredVars) == AnyMissing(e2, RequiredVars) by {
      assert forall i :: 0 <= i < |RequiredVars| ==> RequiredVars[i] in RequiredVars;
    }
  }

  /** Lines that agree name by name make the same list. */
  lemma StatusLinesAgree(e1: Env, e2: Env, names: seq<string>)
    requires forall i :: 0 <= i < |names| ==> StatusLine(e1, names[i]) == StatusLine(e2, names[i])
    ensures StatusLines(e1, names) == StatusLines(e2, names)
  {
  }

  /** Every other set variable is shown with its value. */
  lemma OthersShown(env: Env, i: nat)
    requires i < |RequiredVars| && RequiredVars[i] != SecretVar
    requires !Missing(env, RequiredVars[i])
    ensures var line := Report(env)[2 + i];
            var value := env[RequiredVars[i]];
            |line| >= |value| && line[|line| - |value|..] == value
  {
  }
}
