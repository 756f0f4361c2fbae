/**
 * hpycc/utils/syntaxcheck.py, `syntax_check`: the `eclcc -syntax` command line
 * built for a script, and how the compiler's standard error decides between
 * passing, passing with warnings, and raising.
 */
module SyntaxCheck {
  import opened Wrappers
  import opened Strings

  /** The two server settings the check reads: `legacy` and `repo`. */
  datatype Server = Server(legacy: bool, repo: Option<string>)

  const Eclcc: string := "eclcc -syntax "
  const LegacyFlag: string := "-legacy "

  /** The command line run for `script`. */
  function Command(script: string, server: Server): (command: string)
    ensures StartsWith(command, Eclcc)
    ensures EndsWith(command, " " + script)
    ensures server.legacy <==> StartsWith(command, Eclcc + LegacyFlag)
    ensures |command| == |Eclcc| + (if server.legacy then |LegacyFlag| else 0)
                         + (if server.repo.None? then 1 else 3 + |server.repo.value|) + 1 + |script|
    ensures var at := |Eclcc| + (if server.legacy then |LegacyFlag| else 0);
            (server.repo.None? ==> command[at] == ' ')
            && (server.repo.Some? ==> command[at..at + 3 + |server.repo.value|] == "-I " + server.repo.value)
  {
    var repoFlag := if server.repo.None? then " " else "-I " + server.repo.value;
    var legacyFlag := if server.legacy then LegacyFlag else "";
    var head := Eclcc + legacyFlag;
    var command := head + repoFlag + (" " + script);
    ConcatPieces(head, repoFlag, " " + script);
    assert command[..|Eclcc|] == Eclcc;
    assert !server.legacy && server.repo.None? ==> command[|Eclcc|] == ' ' != LegacyFlag[0];
    assert !server.legacy && server.repo.Some? ==> command[|Eclcc| + 1] == 'I' != LegacyFlag[1];
    command
  }

  /** The command names its flags unambiguously: two settings that give the same command for a script are the same. */
  lemma CommandDeterminesServer(script: string, s1: Server, s2: Server)
    requires Command(script, s1) == Command(script, s2)
    ensures s1 == s2
  {
    var c := Command(script, s1);
    assert s1.legacy == s2.legacy;
    var at := |Eclcc| + (if s1.legacy then |LegacyFlag| else 0);
    if s1.repo.Some? {
      assert c[at] == ("-I " + s1.repo.value)[0] == '-';
    }
    if s2.repo.Some? {
      assert c[at] == ("-I " + s2.repo.value)[0] == '-';
    }
    if s1.repo.Some? && s2.repo.Some? {
      var n := |s1.repo.value|;
      assert |s2.repo.value| == n;
      assert s1.repo.value == ("-I " + s1.repo.value)[3..] == c[at..at + 3 + n][3..] == s2.repo.value;
    }
  }

  /** What the check does with the compiler's standard error. */
  datatype Verdict =
    | Passed              // no output at all
    | PassedWithWarnings  // logged, not raised
    | DoesNotCompile      // `EnvironmentError`: the script does not compile
    | UnhandledFeedback   // `EnvironmentError`: output that is neither error nor warning

  predicate HasError(err: string) { Contains(Lower(err), ": error") }

  predicate HasWarning(err: string) { Contains(Lower(err), ": warning") }

  /** The if/elif chain on `err`. */
  function Classify(err: string): (v: Verdict)
    ensures v == Passed <==> err == ""
    ensures v == DoesNotCompile <==> err != "" && HasError(err)
    ensures v == PassedWithWarnings <==> err != "" && !HasError(err) && HasWarning(err)
    ensures v == UnhandledFeedback <==> err != "" && !HasError(err) && !HasWarning(err)
  {
    if err != "" && HasError(err) then DoesNotCompile
    else if err != "" && HasWarning(err) then PassedWithWarnings
    else if err != "" && !HasWarning(err) then UnhandledFeedback
    else Passed
  }

  predicate Raises(v: Verdict) { v == DoesNotCompile || v == UnhandledFeedback }

  /** A marker is never found in an empty output. */
  lemma MarkerMeansOutput(err: string, marker: string)
    requires marker != "" && Contains(Lower(err), marker)
    ensures err != ""
  {
    assert Lower(err) != "";
    assert |Lower(err)| == |err|;
  }

  /** An error marker makes the script fail to compile, whether or not a warning marker is there too. */
  lemma ErrorBeatsWarning(err: string)
    requires HasError(err)
    ensures Classify(err) == DoesNotCompile && Raises(Classify(err))
  {
    MarkerMeansOutput(err, ": error");
  }

  /** A warning marker with no error marker passes, and nothing is raised. */
  lemma WarningsAlonePass(err: string)
    requires HasWarning(err) && !HasError(err)
    ensures Classify(err) == PassedWithWarnings && !Raises(Classify(err))
  {
    MarkerMeansOutput(err, ": warning");
  }

  /** The error marker is matched in any letter case: `a: Warning; b: ERROR` fails to compile. */
  lemma MixedCaseError()
    ensures Classify("a: Warning; b: ERROR") == DoesNotCompile
  {
    var low := Lower("a: Warning; b: ERROR");
    assert low == "a: warning; b: error";
    assert low[13..] == ": error";
    ContainsAt(low, ": error", 13);
  }

  /** The warning marker is matched in any letter case: `x: Warning` passes with warnings. */
  lemma MixedCaseWarning()
    ensures Classify("x: Warning") == PassedWithWarnings
  {
    var low := Lower("x: Warning");
    assert low == "x: warning";
    assert low[1..] == ": warning";
    ContainsAt(low, ": warning", 1);
    assert ": error"[2] == 'e';
    NotContainsMissingChar(low, ": error", 2);
  }

  /** The outcome of `syntax_check`: no script file, or the command run and the verdict on its output. */
  datatype Outcome =
    | ScriptNotFound
    | Ran(command: string, verdict: Verdict)

  /**
   * `syntax_check`, with the file test and the command's standard error as
   * inputs: a missing file stops it before any command is built.
   */
  function Check(script: string, server: Server, isFile: bool, stderrOf: string -> string): (r: Outcome)
    ensures r == ScriptNotFound <==> !isFile
    ensures r.Ran? ==> r.command == Command(script, server)
    ensures r.Ran? ==> (Raises(r.verdict) <==>
                          (stderrOf(r.command) != "" && (HasError(stderrOf(r.command)) || !HasWarning(stderrOf(r.command)))))
  {
    if !isFile then ScriptNotFound
    else
      var command := Command(script, server);
      Ran(command, Classify(stderrOf(command)))
  }
}
