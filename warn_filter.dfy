/**
 * How warn/warn.go turns a list of enabled warning names into the findings
 * it reports: FileWarnings runs each named check and drops every finding a
 * `buildozer: disable=<warning>` comment switches off (DisabledWarning).
 */
module WarnFilter {
  import opened Wrappers
  import opened Syntax
  import opened Warn
  import opened WarnChecks

  /** The comment text that switches a warning off. */
  function DisableFormat(warning: string): (r: string)
    ensures |r| >= |"buildozer: disable="| && r[..|"buildozer: disable="|] == "buildozer: disable="
    ensures r[|"buildozer: disable="|..] == warning
  {
    "buildozer: disable=" + warning
  }

  /** edit.ContainsComments on a node whose comments are com (see Warn.Contains). */
  predicate Mentions(contains: Contains, com: Comments, text: string)
  {
    contains(com, text)
  }

  /** The load module is a string literal and every To name has a From partner, as the Go types and the parser guarantee. */
  ghost predicate LoadsTyped(s: seq<Expr>)
  {
    forall k :: 0 <= k < |s| && s[k].LoadStmt? ==> s[k].modulePath.StringExpr? && |s[k].from| >= |s[k].to|
  }

  /** An argument of the call starts on the line, and the call or that argument carries the comment. */
  ghost predicate CallArgDisables(call: Expr, line: int, contains: Contains, format: string, sp: SpanOf)
    requires call.CallExpr?
  {
    exists a :: 0 <= a < |call.list| && sp(call.list[a]).start.line == line
      && (Mentions(contains, call.com, format) || Mentions(contains, call.list[a].com, format))
  }

  /** Load pair i has a name on the line, and one of its names or the load carries the comment. */
  predicate PairDisables(load: Expr, i: nat, line: int, contains: Contains, format: string)
    requires load.LoadStmt? && i < |load.to| <= |load.from|
  {
    (load.to[i].namePos.line == line || load.from[i].namePos.line == line)
    && (Mentions(contains, load.to[i].com, format) || Mentions(contains, load.from[i].com, format)
        || Mentions(contains, load.com, format))
  }

  /** The module string starts on the line and it or the load carries the comment, or some pair disables. */
  ghost predicate LoadDisables(load: Expr, line: int, contains: Contains, format: string)
    requires load.LoadStmt? && load.modulePath.StringExpr? && |load.to| <= |load.from|
  {
    || (load.modulePath.start.line == line
        && (Mentions(contains, load.modulePath.com, format) || Mentions(contains, load.com, format)))
    || exists i :: 0 <= i < |load.to| && PairDisables(load, i, line, contains, format)
  }

  /** One top-level statement switches the warning off for findings starting on `line`. */
  ghost predicate StmtDisables(stmt: Expr, line: int, contains: Contains, format: string, sp: SpanOf)
    requires stmt.LoadStmt? ==> stmt.modulePath.StringExpr? && |stmt.to| <= |stmt.from|
  {
    || (sp(stmt).start.line == line && Mentions(contains, stmt.com, format))
    || (stmt.CallExpr? && CallArgDisables(stmt, line, contains, format, sp))
    || (stmt.LoadStmt? && LoadDisables(stmt, line, contains, format))
  }

  /** A finding is disabled when some top-level statement switches its warning off on its start line. */
  ghost predicate Disabled(s: seq<Expr>, finding: Finding, warning: string, contains: Contains, sp: SpanOf)
    requires LoadsTyped(s)
  {
    exists k :: 0 <= k < |s| && StmtDisables(s[k], finding.start.line, contains, DisableFormat(warning), sp)
  }

  /** The loop over a rule's arguments. */
  method CallArgCheck(call: Expr, line: int, contains: Contains, format: string, sp: SpanOf) returns (r: bool)
    requires call.CallExpr?
    ensures r == CallArgDisables(call, line, contains, format, sp)
  {
    var a := 0;
    while a < |call.list|
      invariant a <= |call.list|
      invariant forall b :: 0 <= b < a ==>
                  !(sp(call.list[b]).start.line == line
                    && (Mentions(contains, call.com, format) || Mentions(contains, call.list[b].com, format)))
    {
      var arg := call.list[a];
      if sp(arg).start.line != line {
        a := a + 1;
        continue;
      }
      if Mentions(contains, call.com, format) || Mentions(contains, arg.com, format) {
        return true;
      }
      a := a + 1;
    }
    return false;
  }

  /** The checks on a load: its module string, then each pair. */
  method LoadCheck(load: Expr, line: int, contains: Contains, format: string) returns (r: bool)
    requires load.LoadStmt? && load.modulePath.StringExpr? && |load.to| <= |load.from|
    ensures r == LoadDisables(load, line, contains, format)
  {
    var loadHasComment := Mentions(contains, load.com, format);
    var modulePath := load.modulePath;
    if modulePath.start.line == line {
      if Mentions(contains, modulePath.com, format) || loadHasComment {
        return true;
      }
    }
    var i := 0;
    while i < |load.to|
      invariant i <= |load.to|
      invariant forall k :: 0 <= k < i ==> !PairDisables(load, k, line, contains, format)
    {
      var to, from := load.to[i], load.from[i];
      if to.namePos.line == line || from.namePos.line == line {
        if Mentions(contains, to.com, format) || Mentions(contains, from.com, format) || loadHasComment {
          assert PairDisables(load, i, line, contains, format);
          return true;
        }
      }
      i := i + 1;
    }
    return false;
  }

  /** The body of the loop of DisabledWarning for one statement. */
  method StmtCheck(stmt: Expr, line: int, contains: Contains, format: string, sp: SpanOf) returns (r: bool)
    requires stmt.LoadStmt? ==> stmt.modulePath.StringExpr? && |stmt.to| <= |stmt.from|
    ensures r == StmtDisables(stmt, line, contains, format, sp)
  {
    if sp(stmt).start.line == line {
      if Mentions(contains, stmt.com, format) {
        return true;
      }
    }
    if stmt.CallExpr? {
      r := CallArgCheck(stmt, line, contains, format, sp);
      if r {
        return;
      }
    }
    if stmt.LoadStmt? {
      r := LoadCheck(stmt, line, contains, format);
      return;
    }
    return false;
  }

  /** DisabledWarning: true exactly when a statement of the file switches the finding's warning off. */
  method DisabledWarning(f: File, finding: Finding, warning: string, contains: Contains, sp: SpanOf) returns (r: bool)
    requires LoadsTyped(f.stmt)
    ensures r == Disabled(f.stmt, finding, warning, contains, sp)
  {
    var format := DisableFormat(warning);
    var findingLine := finding.start.line;
    var k := 0;
    while k < |f.stmt|
      invariant k <= |f.stmt|
      invariant forall j :: 0 <= j < k ==> !StmtDisables(f.stmt[j], findingLine, contains, format, sp)
    {
      var hit := StmtCheck(f.stmt[k], findingLine, contains, format, sp);
      if hit {
        return true;
      }
      k := k + 1;
    }
    return false;
  }

  /** A statement on the finding's line whose own comments carry the disable comment switches it off. */
  lemma SameLineCommentDisables(s: seq<Expr>, k: nat, finding: Finding, warning: string, contains: Contains, sp: SpanOf)
    requires LoadsTyped(s) && k < |s|
    requires sp(s[k]).start.line == finding.start.line && Mentions(contains, s[k].com, DisableFormat(warning))
    ensures Disabled(s, finding, warning, contains, sp)
  {
    assert StmtDisables(s[k], finding.start.line, contains, DisableFormat(warning), sp);
  }

  /** A comment disables only the warning it names: different warnings need different comments. */
  lemma DisableFormatInjective(a: string, b: string)
    requires DisableFormat(a) == DisableFormat(b)
    ensures a == b
  {
    assert a == DisableFormat(a)[|"buildozer: disable="|..];
  }

  /** When no node of the file mentions the disable comment, nothing is disabled. */
  lemma UnmentionedNotDisabled(s: seq<Expr>, finding: Finding, warning: string, contains: Contains, sp: SpanOf)
    requires LoadsTyped(s)
    requires forall com :: !Mentions(contains, com, DisableFormat(warning))
    ensures !Disabled(s, finding, warning, contains, sp)
  {
  }

  // ---------------------------------------------------------------------------
  // FileWarnings
  // ---------------------------------------------------------------------------

  /** The names of FileWarningMap. */
  const FileWarningNames: set<string> := {
    "attr-cfg", "attr-non-empty", "attr-single-file", "constant-glob", "ctx-actions",
    "depset-iteration", "depset-union", "dict-concatenation", "duplicated-name", "filetype",
    "git-repository", "http-archive", "integer-division", "load", "load-on-top", "no-effect",
    "output-group", "package-name", "package-on-top", "redefined-variable", "repository-name",
    "string-iteration", "unused-variable"
  }

  /** The one name of RuleWarningMap. */
  const RuleWarningName := "positional-args"

  /** What each file-level check returns when FileWarnings runs it (the checks are modelled separately). */
  type CheckRun = string -> seq<Finding>

  function RunCheck(run: CheckRun, warning: string): seq<Finding>
  {
    run(warning)
  }

  /** The findings that no comment switches off, in order. */
  ghost function Undisabled(s: seq<Expr>, fs: seq<Finding>, warning: string, contains: Contains, sp: SpanOf): (r: seq<Finding>)
    requires LoadsTyped(s)
    ensures |r| <= |fs|
    decreases |fs|
  {
    if fs == [] then []
    else
      var rest := Undisabled(s, fs[..|fs| - 1], warning, contains, sp);
      if Disabled(s, fs[|fs| - 1], warning, contains, sp) then rest else rest + [fs[|fs| - 1]]
  }

  /** The positional-argument findings for the top-level statements, in order. */
  function PositionalFindings(s: seq<Expr>, sp: SpanOf): seq<Finding>
    decreases |s|
  {
    if s == [] then []
    else PositionalFindings(s[..|s| - 1], sp)
         + match PositionalArgs(s[|s| - 1], sp) case Some(w) => [w] case None => []
  }

  /** What one enabled warning contributes, or None for a name neither map knows. */
  ghost function WarningFindings(s: seq<Expr>, isBuild: bool, warning: string, run: CheckRun, contains: Contains, sp: SpanOf)
    : Option<seq<Finding>>
    requires LoadsTyped(s)
  {
    if warning in FileWarningNames then Some(Undisabled(s, RunCheck(run, warning), warning, contains, sp))
    else if warning != RuleWarningName then None
    else if !isBuild then Some([])
    else Some(Undisabled(s, PositionalFindings(s, sp), warning, contains, sp))
  }

  /** The findings for the first j enabled warnings; an unknown name stops everything (log.Fatalf). */
  ghost function AllFindings(s: seq<Expr>, isBuild: bool, enabled: seq<string>, j: nat, run: CheckRun, contains: Contains, sp: SpanOf)
    : Result<seq<Finding>, string>
    requires j <= |enabled| && LoadsTyped(s)
    decreases j
  {
    if j == 0 then Success([])
    else match AllFindings(s, isBuild, enabled, j - 1, run, contains, sp)
      case Failure(e) => Failure(e)
      case Success(prev) =>
        match WarningFindings(s, isBuild, enabled[j - 1], run, contains, sp)
        case None => Failure("unexpected warning \"" + enabled[j - 1] + "\"")
        case Some(fs) => Success(prev + fs)
  }

  /** The inner loop of FileWarnings: keep the findings of one warning that are not disabled. */
  method KeepUndisabled(f: File, fs: seq<Finding>, warning: string, contains: Contains, sp: SpanOf, findings0: seq<Finding>)
    returns (findings: seq<Finding>)
    requires LoadsTyped(f.stmt)
    ensures findings == findings0 + Undisabled(f.stmt, fs, warning, contains, sp)
  {
    findings := findings0;
    var i := 0;
    while i < |fs|
      invariant i <= |fs| && findings == findings0 + Undisabled(f.stmt, fs[..i], warning, contains, sp)
    {
      var off := DisabledWarning(f, fs[i], warning, contains, sp);
      assert fs[..i + 1][..i] == fs[..i];
      if !off {
        findings := findings + [fs[i]];
      }
      i := i + 1;
    }
    assert fs[..|fs|] == fs;
  }

  /** The rule-warning loop: positionalArgumentsWarning on each top-level statement. */
  method RuleFindings(f: File, pkg: string, sp: SpanOf) returns (ws: seq<Finding>)
    ensures ws == PositionalFindings(f.stmt, sp)
  {
    ws := [];
    var k := 0;
    while k < |f.stmt|
      invariant k <= |f.stmt| && ws == PositionalFindings(f.stmt[..k], sp)
    {
      var w := PositionalArgumentsWarning(f, pkg, f.stmt[k], sp);
      assert f.stmt[..k + 1][..k] == f.stmt[..k];
      if w.Some? {
        ws := ws + [w.value];
      }
      k := k + 1;
    }
    assert f.stmt[..|f.stmt|] == f.stmt;
  }

  /** One pass of the loop of FileWarnings: the findings of one enabled warning appended, or None for an unknown name. */
  method OneWarning(f: File, pkg: string, warn: string, run: CheckRun, contains: Contains, sp: SpanOf, findings0: seq<Finding>)
    returns (r: Option<seq<Finding>>)
    requires LoadsTyped(f.stmt)
    ensures r == match WarningFindings(f.stmt, f.isBuild, warn, run, contains, sp)
                 case None => None
                 case Some(fs) => Some(findings0 + fs)
  {
    if warn in FileWarningNames {
      var findings := KeepUndisabled(f, RunCheck(run, warn), warn, contains, sp, findings0);
      return Some(findings);
    }
    if warn != RuleWarningName {
      return None;
    }
    if !f.isBuild {
      assert findings0 + [] == findings0;
      return Some(findings0);
    }
    var ws := RuleFindings(f, pkg, sp);
    var findings := KeepUndisabled(f, ws, warn, contains, sp, findings0);
    return Some(findings);
  }

  /**
   * FileWarnings: every enabled warning in order, each finding kept only when
   * no comment disables it; the rule warning runs on BUILD files only.  The
   * file-level checks are `run` (the fixes they make between runs are not
   * part of this model), and an unknown name is a failure.
   */
  method FileWarnings(f: File, pkg: string, enabled: seq<string>, run: CheckRun, contains: Contains, sp: SpanOf)
    returns (r: Result<seq<Finding>, string>)
    requires LoadsTyped(f.stmt)
    ensures r == AllFindings(f.stmt, f.isBuild, enabled, |enabled|, run, contains, sp)
  {
    var findings: seq<Finding> := [];
    var j := 0;
    while j < |enabled|
      invariant j <= |enabled| && AllFindings(f.stmt, f.isBuild, enabled, j, run, contains, sp) == Success(findings)
    {
      var warn := enabled[j];
      var next := OneWarning(f, pkg, warn, run, contains, sp, findings);
      FindingsStep(f.stmt, f.isBuild, enabled, j, run, contains, sp, findings);
      if next.None? {
        return Failure("unexpected warning \"" + warn + "\"");
      }
      findings := next.value;
      j := j + 1;
    }
    return Success(findings);
  }

  /** Every reported finding came from its check and is not disabled. */
  lemma {:induction false} UndisabledSound(s: seq<Expr>, fs: seq<Finding>, warning: string, contains: Contains, sp: SpanOf)
    requires LoadsTyped(s)
    ensures forall w :: w in Undisabled(s, fs, warning, contains, sp) ==> w in fs && !Disabled(s, w, warning, contains, sp)
    decreases |fs|
  {
    if fs != [] {
      UndisabledSound(s, fs[..|fs| - 1], warning, contains, sp);
    }
  }

  /** And no finding of the check that is not disabled is lost. */
  lemma {:induction false} UndisabledComplete(s: seq<Expr>, fs: seq<Finding>, warning: string, contains: Contains, sp: SpanOf)
    requires LoadsTyped(s)
    ensures forall w :: w in fs && !Disabled(s, w, warning, contains, sp) ==> w in Undisabled(s, fs, warning, contains, sp)
    decreases |fs|
  {
    if fs != [] {
      var init := fs[..|fs| - 1];
      UndisabledComplete(s, init, warning, contains, sp);
      assert fs == init + [fs[|fs| - 1]];
    }
  }

  /** One more warning: an unknown one is the final result, a known one appends its findings. */
  lemma FindingsStep(s: seq<Expr>, isBuild: bool, enabled: seq<string>, j: nat, run: CheckRun, contains: Contains, sp: SpanOf,
                     findings: seq<Finding>)
    requires j < |enabled| && LoadsTyped(s) && AllFindings(s, isBuild, enabled, j, run, contains, sp) == Success(findings)
    ensures WarningFindings(s, isBuild, enabled[j], run, contains, sp).None? ==>
              AllFindings(s, isBuild, enabled, |enabled|, run, contains, sp) == Failure("unexpected warning \"" + enabled[j] + "\"")
    ensures WarningFindings(s, isBuild, enabled[j], run, contains, sp).Some? ==>
              AllFindings(s, isBuild, enabled, j + 1, run, contains, sp)
              == Success(findings + WarningFindings(s, isBuild, enabled[j], run, contains, sp).value)
  {
    if WarningFindings(s, isBuild, enabled[j], run, contains, sp).None? {
      FailureSticks(s, isBuild, enabled, j + 1, |enabled|, run, contains, sp);
    }
  }

  /** The first failure is the result: the warnings after it never run. */
  lemma {:induction false} FailureSticks(s: seq<Expr>, isBuild: bool, enabled: seq<string>, j: nat, j': nat, run: CheckRun, contains: Contains, sp: SpanOf)
    requires j <= j' <= |enabled| && LoadsTyped(s)
    requires AllFindings(s, isBuild, enabled, j, run, contains, sp).Failure?
    ensures AllFindings(s, isBuild, enabled, j', run, contains, sp) == AllFindings(s, isBuild, enabled, j, run, contains, sp)
    decreases j' - j
  {
    if j < j' {
      FailureSticks(s, isBuild, enabled, j, j' - 1, run, contains, sp);
    }
  }

  /** Enabling a name that neither map knows makes FileWarnings fail, whatever else is enabled. */
  lemma {:induction false} UnknownWarningFails(s: seq<Expr>, isBuild: bool, enabled: seq<string>, j: nat, k: nat, run: CheckRun, contains: Contains, sp: SpanOf)
    requires k < j <= |enabled| && LoadsTyped(s)
    requires enabled[k] !in FileWarningNames && enabled[k] != RuleWarningName
    ensures AllFindings(s, isBuild, enabled, j, run, contains, sp).Failure?
    decreases j
  {
    if k < j - 1 {
      UnknownWarningFails(s, isBuild, enabled, j - 1, k, run, contains, sp);
    }
  }

  /** With only known names, each warning adds its own findings after those of the warnings before it. */
  lemma KnownWarningAppends(s: seq<Expr>, isBuild: bool, enabled: seq<string>, j: nat, run: CheckRun, contains: Contains, sp: SpanOf)
    requires 0 < j <= |enabled| && LoadsTyped(s)
    requires AllFindings(s, isBuild, enabled, j - 1, run, contains, sp).Success?
    requires enabled[j - 1] in FileWarningNames
    ensures AllFindings(s, isBuild, enabled, j, run, contains, sp)
      == Success(AllFindings(s, isBuild, enabled, j - 1, run, contains, sp).value
                 + Undisabled(s, RunCheck(run, enabled[j - 1]), enabled[j - 1], contains, sp))
  {
  }

  /** A file that is not a BUILD file gets nothing from the rule warning. */
  lemma RuleWarningSkipsNonBuild(s: seq<Expr>, isBuild: bool, run: CheckRun, contains: Contains, sp: SpanOf)
    requires LoadsTyped(s) && !isBuild
    ensures WarningFindings(s, isBuild, RuleWarningName, run, contains, sp) == Some([])
  {
  }
}
