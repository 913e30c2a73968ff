/**
 * The checks of warn/warn.go that only report: redefined variables,
 * duplicated rule names, the position of package(), statements without
 * effect and constant glob patterns; and integer division, whose fix
 * rewrites the operator; and the one check run per rule, positional
 * arguments.  Each check that loops in the source is a method
 * proved against a definition that does not loop.
 */
module WarnChecks {
  import opened Wrappers
  import opened Syntax
  import opened Strings
  import opened Warn
  import opened Seqs
  import Nodes

  // ---------------------------------------------------------------------------
  // redefined-variable
  // ---------------------------------------------------------------------------

  /** The name a statement assigns, as this check recognises an assignment: a BinaryExpr "=" with an Ident on the left. */
  function AssignedName(e: Expr): Option<string>
  {
    if e.BinaryExpr? && e.op == "=" && e.x.Ident? then Some(e.x.name) else None
  }

  /** Statement i assigns a name that a statement before it assigned already. */
  ghost predicate Redefines(s: seq<Expr>, i: nat)
    requires i < |s|
  {
    AssignedName(s[i]).Some? && exists k :: 0 <= k < i && AssignedName(s[k]) == AssignedName(s[i])
  }

  const RedefinedMessage := "\" has already been defined. Redefining a global value is discouraged and will be forbidden in the future.\nConsider using a new variable instead."

  /** The finding for a redefinition, spanning the assigned identifier. */
  function RedefinitionFinding(e: Expr, sp: SpanOf): Finding
    requires AssignedName(e).Some?
  {
    MakeFinding(sp(e.x).start, sp(e.x).end, "redefined-variable", "Variable \"" + e.x.name + RedefinedMessage, true, None)
  }

  /** One finding per redefinition among the first j statements, in order. */
  ghost function Redefinitions(s: seq<Expr>, sp: SpanOf, j: nat): seq<Finding>
    requires j <= |s|
    decreases j
  {
    if j == 0 then []
    else Redefinitions(s, sp, j - 1) + (if Redefines(s, j - 1) then [RedefinitionFinding(s[j - 1], sp)] else [])
  }

  /** The names assigned by the first j statements: definedSymbols after j passes. */
  function AssignedBefore(s: seq<Expr>, j: nat): set<string>
    requires j <= |s|
    decreases j
  {
    if j == 0 then {}
    else AssignedBefore(s, j - 1) + (match AssignedName(s[j - 1]) case Some(n) => {n} case None => {})
  }

  /** A name has been assigned before j exactly when one of the first j statements assigns it. */
  lemma {:induction false} AssignedBeforeMeans(s: seq<Expr>, j: nat, n: string)
    requires j <= |s|
    ensures n in AssignedBefore(s, j) <==> exists k :: 0 <= k < j && AssignedName(s[k]) == Some(n)
    decreases j
  {
    if j > 0 {
      AssignedBeforeMeans(s, j - 1, n);
      if AssignedName(s[j - 1]) == Some(n) {
        assert AssignedName(s[j - 1]) == Some(n);
      }
    }
  }

  /**
   * redefinedVariableWarning: definedSymbols collects the names assigned so
   * far; an assignment to a name already in it is reported instead of added.
   */
  method RedefinedVariableWarning(f: File, sp: SpanOf) returns (findings: seq<Finding>)
    ensures findings == Redefinitions(f.stmt, sp, |f.stmt|)
  {
    findings := [];
    var definedSymbols: set<string> := {};
    var j := 0;
    while j < |f.stmt|
      invariant j <= |f.stmt| && definedSymbols == AssignedBefore(f.stmt, j)
      invariant findings == Redefinitions(f.stmt, sp, j)
    {
      var s := f.stmt[j];
      if !s.BinaryExpr? || s.op != "=" || !s.x.Ident? {
        j := j + 1;
        continue;
      }
      AssignedBeforeMeans(f.stmt, j, s.x.name);
      if s.x.name in definedSymbols {
        findings := findings + [RedefinitionFinding(s, sp)];
        j := j + 1;
        continue;
      }
      definedSymbols := definedSymbols + {s.x.name};
      j := j + 1;
    }
  }

  /** Statements that are not `=` BinaryExprs never produce a finding. */
  lemma {:induction false} NoAssignmentsNoRedefinitions(s: seq<Expr>, sp: SpanOf, j: nat)
    requires j <= |s|
    requires forall k :: 0 <= k < |s| ==> AssignedName(s[k]).None?
    ensures Redefinitions(s, sp, j) == []
    decreases j
  {
    if j > 0 {
      NoAssignmentsNoRedefinitions(s, sp, j - 1);
    }
  }

  /** The parser builds `x = 1` as an AssignExpr, which this check does not take for an assignment. */
  lemma ParsedAssignmentIsNotRedefinition(x: Expr, pos: Position, y: Expr, sp: SpanOf)
    ensures Nodes.Binary(x, pos, "=", y, sp).AssignExpr?
    ensures AssignedName(Nodes.Binary(x, pos, "=", y, sp)).None?
  {
  }

  /** Reassigning a name flags the second assignment only: `x = 1`, `x = 2` gives one finding, for the second. */
  lemma RedefinitionExample(a: Expr, b: Expr, sp: SpanOf)
    requires AssignedName(a) == Some("x") && AssignedName(b) == Some("x")
    ensures Redefinitions([a, b], sp, 2) == [RedefinitionFinding(b, sp)]
  {
    assert !Redefines([a, b], 0);
    assert Redefines([a, b], 1) by {
      assert AssignedName([a, b][0]) == AssignedName([a, b][1]);
    }
  }

  // ---------------------------------------------------------------------------
  // duplicated-name
  // ---------------------------------------------------------------------------

  /** A rule as f.Rules reports it: its name, its call, and its `name` attribute if it has one. */
  datatype Rule = Rule(name: string, call: Expr, nameAttr: Option<Expr>)

  /** The span a finding for the rule covers: the `name` attribute if present, else the call. */
  function RuleSpan(r: Rule, sp: SpanOf): Span
  {
    match r.nameAttr
    case Some(attr) => sp(attr)
    case None => sp(r.call)
  }

  /** The index of the first rule named n. */
  function FirstNamed(rules: seq<Rule>, n: string): (r: Option<nat>)
    ensures r.Some? ==> r.value < |rules| && rules[r.value].name == n
    ensures r.Some? ==> forall k :: 0 <= k < r.value ==> rules[k].name != n
    ensures r.None? ==> forall k :: 0 <= k < |rules| ==> rules[k].name != n
    decreases |rules|
  {
    if rules == [] then None
    else if rules[0].name == n then Some(0)
    else match FirstNamed(rules[1..], n)
      case None => None
      case Some(k) => Some(k + 1)
  }

  /** The first rule with a name stays the first when more rules follow; otherwise the new rule may be it. */
  lemma FirstNamedSnoc(rules: seq<Rule>, j: nat, n: string)
    requires j < |rules|
    ensures FirstNamed(rules[..j + 1], n)
      == if FirstNamed(rules[..j], n).Some? then FirstNamed(rules[..j], n)
         else if rules[j].name == n then Some(j) else None
  {
    var p, q := rules[..j], rules[..j + 1];
    assert forall i :: 0 <= i < j ==> q[i] == p[i];
    assert q[j] == rules[j];
  }

  const DuplicateMessageTail := ". Even if it's valid for Blaze, this may confuse other tools. Please rename it and use different names."

  /** The finding for a rule whose name was first used on line `line`. */
  function DuplicateFinding(r: Rule, line: int, sp: SpanOf): Finding
  {
    var span := RuleSpan(r, sp);
    MakeFinding(span.start, span.end, "duplicated-name",
                "A rule with name `" + r.name + "' was already found on line " + IntToString(line) + DuplicateMessageTail,
                true, None)
  }

  /**
   * The findings for the first j rules: a rule with a non-empty name used by
   * an earlier rule is reported with the line of the first rule of that name.
   */
  function Duplicates(rules: seq<Rule>, sp: SpanOf, j: nat): seq<Finding>
    requires j <= |rules|
    decreases j
  {
    if j == 0 then []
    else
      var r := rules[j - 1];
      Duplicates(rules, sp, j - 1)
      + match FirstNamed(rules[..j - 1], r.name)
        case Some(k) => if r.name != "" then [DuplicateFinding(r, RuleSpan(rules[k], sp).start.line, sp)] else []
        case None => []
  }

  /** `names` records, for each non-empty name among the first j rules, the line of its first rule. */
  ghost predicate NamesSeen(rules: seq<Rule>, sp: SpanOf, j: nat, names: map<string, int>)
    requires j <= |rules|
  {
    && (forall n :: n in names <==> n != "" && FirstNamed(rules[..j], n).Some?)
    && (forall n :: n in names ==> names[n] == RuleSpan(rules[FirstNamed(rules[..j], n).value], sp).start.line)
  }

  /** One pass of the loop: a name already recorded adds a finding, a new one is recorded. */
  lemma DuplicateStep(rules: seq<Rule>, sp: SpanOf, j: nat, names: map<string, int>)
    requires j < |rules| && NamesSeen(rules, sp, j, names)
    ensures var r := rules[j];
      && (r.name == "" ==> NamesSeen(rules, sp, j + 1, names) && Duplicates(rules, sp, j + 1) == Duplicates(rules, sp, j))
      && (r.name != "" && r.name in names ==>
            (NamesSeen(rules, sp, j + 1, names)
             && Duplicates(rules, sp, j + 1) == Duplicates(rules, sp, j) + [DuplicateFinding(r, names[r.name], sp)]))
      && (r.name != "" && r.name !in names ==>
            (NamesSeen(rules, sp, j + 1, names[r.name := RuleSpan(r, sp).start.line])
             && Duplicates(rules, sp, j + 1) == Duplicates(rules, sp, j)))
  {
    forall n ensures FirstNamed(rules[..j + 1], n)
        == if FirstNamed(rules[..j], n).Some? then FirstNamed(rules[..j], n)
           else if rules[j].name == n then Some(j) else None {
      FirstNamedSnoc(rules, j, n);
    }
    assert rules[..j + 1][..j] == rules[..j];
    assert forall k :: 0 <= k < j ==> rules[..j + 1][k] == rules[k];
  }

  /**
   * duplicatedNameWarning.  `rules` is what f.Rules("") returns (not part of
   * this model).  `names` maps each name seen to the line of its first rule.
   */
  method DuplicatedNameWarning(f: File, rules: seq<Rule>, sp: SpanOf) returns (findings: seq<Finding>)
    ensures !f.isBuild ==> findings == []
    ensures f.isBuild ==> findings == Duplicates(rules, sp, |rules|)
  {
    findings := [];
    if !f.isBuild {
      return;
    }
    var names: map<string, int> := map[];
    var j := 0;
    while j < |rules|
      invariant j <= |rules| && findings == Duplicates(rules, sp, j) && NamesSeen(rules, sp, j, names)
    {
      var rule := rules[j];
      var name := rule.name;
      DuplicateStep(rules, sp, j, names);
      if name == "" {
        j := j + 1;
        continue;
      }
      var span := RuleSpan(rule, sp);
      if name in names {
        findings := findings + [DuplicateFinding(rule, names[name], sp)];
      } else {
        names := names[name := span.start.line];
      }
      j := j + 1;
    }
  }

  /** A rule whose name no earlier rule has, or whose name is empty, adds no finding. */
  lemma FirstOccurrenceNotFlagged(rules: seq<Rule>, sp: SpanOf, j: nat)
    requires 0 < j <= |rules|
    requires rules[j - 1].name == "" || forall k :: 0 <= k < j - 1 ==> rules[k].name != rules[j - 1].name
    ensures Duplicates(rules, sp, j) == Duplicates(rules, sp, j - 1)
  {
    assert forall i :: 0 <= i < j - 1 ==> rules[..j - 1][i] == rules[i];
  }

  /** A later rule with a used name adds one finding, citing the line of the first rule of that name. */
  lemma LaterDuplicateFlagged(rules: seq<Rule>, sp: SpanOf, k: nat, j: nat)
    requires k < j - 1 && j <= |rules| && rules[j - 1].name != ""
    requires rules[k].name == rules[j - 1].name && forall i :: 0 <= i < k ==> rules[i].name != rules[k].name
    ensures Duplicates(rules, sp, j)
      == Duplicates(rules, sp, j - 1) + [DuplicateFinding(rules[j - 1], RuleSpan(rules[k], sp).start.line, sp)]
  {
    var p := rules[..j - 1];
    assert forall i :: 0 <= i < j - 1 ==> p[i] == rules[i];
    var first := FirstNamed(p, rules[j - 1].name);
    assert p[k].name == rules[j - 1].name;
    assert first.Some? && first.value <= k;
    assert first.value == k;
  }

  // ---------------------------------------------------------------------------
  // package-on-top
  // ---------------------------------------------------------------------------

  /** edit.ExprToRule(stmt, kind) succeeds (it is not part of this model). */
  type RuleTest = (Expr, string) -> bool

  predicate IsRule(isRule: RuleTest, e: Expr, kind: string)
  {
    isRule(e, kind)
  }

  /** Statements allowed before package(): strings, comments, binary expressions, loads, package_group and licenses. */
  predicate MayPrecedePackage(e: Expr, isRule: RuleTest)
  {
    e.StringExpr? || e.CommentBlock? || e.BinaryExpr? || e.LoadStmt?
    || IsRule(isRule, e, "package_group") || IsRule(isRule, e, "licenses")
  }

  /** Statement i is a package() call that the loop looks at. */
  predicate IsPackageAt(s: seq<Expr>, i: nat, isRule: RuleTest)
    requires i < |s|
  {
    !MayPrecedePackage(s[i], isRule) && IsRule(isRule, s[i], "package")
  }

  /** The index of the first package() call, from index i on. */
  function FirstPackage(s: seq<Expr>, isRule: RuleTest, i: nat): (r: Option<nat>)
    requires i <= |s|
    ensures r.Some? ==> i <= r.value < |s| && IsPackageAt(s, r.value, isRule)
    ensures r.Some? ==> forall k :: i <= k < r.value ==> !IsPackageAt(s, k, isRule)
    ensures r.None? ==> forall k :: i <= k < |s| ==> !IsPackageAt(s, k, isRule)
    decreases |s| - i
  {
    if i == |s| then None
    else if IsPackageAt(s, i, isRule) then Some(i)
    else FirstPackage(s, isRule, i + 1)
  }

  const PackageMessage := "Package declaration should be at the top of the file, after the load() statements, but before any call to a rule or a macro. package_group() and licenses() may be called before package()."

  /** The finding for a package() call after a rule; rule.Call is taken to be the statement itself. */
  function PackageFinding(e: Expr, sp: SpanOf): Finding
  {
    MakeFinding(sp(e).start, sp(e).end, "package-on-top", PackageMessage, true, None)
  }

  /** Some statement before index p is neither allowed before package() nor package() itself. */
  ghost predicate RuleBefore(s: seq<Expr>, isRule: RuleTest, p: nat)
    requires p <= |s|
  {
    exists k :: 0 <= k < p && !MayPrecedePackage(s[k], isRule)
  }

  /** One finding for the first package() call when a rule or macro call comes before it; none otherwise. */
  ghost function PackageOnTop(s: seq<Expr>, isRule: RuleTest, sp: SpanOf): (r: seq<Finding>)
    ensures |r| <= 1
    ensures r != [] ==> FirstPackage(s, isRule, 0).Some?
  {
    match FirstPackage(s, isRule, 0)
    case None => []
    case Some(p) => if RuleBefore(s, isRule, p) then [PackageFinding(s[p], sp)] else []
  }

  /** packageOnTopWarning: seenRule records a statement that may not precede package(). */
  method PackageOnTopWarning(f: File, isRule: RuleTest, sp: SpanOf) returns (findings: seq<Finding>)
    ensures findings == PackageOnTop(f.stmt, isRule, sp)
  {
    var seenRule := false;
    var i := 0;
    while i < |f.stmt|
      invariant i <= |f.stmt|
      invariant seenRule <==> RuleBefore(f.stmt, isRule, i)
      invariant FirstPackage(f.stmt, isRule, 0) == FirstPackage(f.stmt, isRule, i)
    {
      var stmt := f.stmt[i];
      if MayPrecedePackage(stmt, isRule) {
        i := i + 1;
        continue;
      }
      if IsRule(isRule, stmt, "package") {
        if !seenRule {
          return [];
        }
        return [PackageFinding(stmt, sp)];
      }
      assert !MayPrecedePackage(f.stmt[i], isRule);
      seenRule := true;
      i := i + 1;
    }
    return [];
  }

  /** With package() before every rule or macro call there is no finding. */
  lemma PackageFirstNoFinding(s: seq<Expr>, isRule: RuleTest, sp: SpanOf, p: nat)
    requires p < |s| && IsPackageAt(s, p, isRule)
    requires forall k :: 0 <= k < p ==> MayPrecedePackage(s[k], isRule)
    ensures PackageOnTop(s, isRule, sp) == []
  {
    var q := FirstPackage(s, isRule, 0);
    assert q.Some? && q.value <= p;
  }

  /** A rule or macro call before the first package() gives exactly one finding, for that package(). */
  lemma PackageAfterRuleFlagged(s: seq<Expr>, isRule: RuleTest, sp: SpanOf, k: nat, p: nat)
    requires k < p < |s| && IsPackageAt(s, p, isRule) && !MayPrecedePackage(s[k], isRule)
    requires forall i :: 0 <= i < p ==> !IsPackageAt(s, i, isRule)
    ensures PackageOnTop(s, isRule, sp) == [PackageFinding(s[p], sp)]
  {
    var q := FirstPackage(s, isRule, 0);
    assert q == Some(p);
  }

  // ---------------------------------------------------------------------------
  // no-effect
  // ---------------------------------------------------------------------------

  /**
   * isBranchStmt: the identifiers break, continue and pass.  The parser's own
   * BranchStmt node for those keywords is not one.
   */
  predicate IsBranchStmt(e: Expr): (r: bool)
    ensures r ==> e.Ident? && e.name in {"break", "continue", "pass"}
    ensures e.Ident? && e.name in {"break", "continue", "pass"} ==> r
    ensures e.BranchStmt? ==> !r
  {
    e.Ident? && (e.name == "break" || e.name == "continue" || e.name == "pass")
  }

  /** Statement kinds the check never reports: blocks, loads, returns, calls, comments, assignment-like operators, branches. */
  predicate NoEffectExempt(e: Expr)
  {
    || e.DefStmt? || e.ForStmt? || e.IfStmt? || e.LoadStmt? || e.ReturnStmt? || e.CallExpr? || e.CommentBlock?
    || (e.BinaryExpr? && e.op != "==" && e.op != "!=" && HasSuffix(e.op, "="))
    || IsBranchStmt(e)
  }

  /** Some statement before index i is not a CommentBlock. */
  ghost predicate SeenNonComment(body: seq<Expr>, i: nat)
    requires i <= |body|
  {
    exists k :: 0 <= k < i && !body[k].CommentBlock?
  }

  /** Statement i is a docstring: a string with only comments before it, at top level or in a function. */
  ghost predicate IsDocstring(body: seq<Expr>, i: nat, isTopLevel: bool, isFunc: bool)
    requires i < |body|
  {
    body[i].StringExpr? && !SeenNonComment(body, i) && (isTopLevel || isFunc)
  }

  /** Statement i is reported: not a docstring, not exempt, and not a list comprehension at top level. */
  ghost predicate NoEffectFlags(body: seq<Expr>, i: nat, isTopLevel: bool, isFunc: bool)
    requires i < |body|
  {
    !IsDocstring(body, i, isTopLevel, isFunc) && !NoEffectExempt(body[i])
    && !(body[i].Comprehension? && isTopLevel && !body[i].curly)
  }

  const NoEffectMessage := "Expression result is not used."
  const ComprehensionMessage := "Expression result is not used. Use a for-loop instead of a list comprehension."

  function NoEffectFinding(e: Expr, sp: SpanOf): Finding
  {
    MakeFinding(sp(e).start, sp(e).end, "no-effect",
                if e.Comprehension? then ComprehensionMessage else NoEffectMessage, true, None)
  }

  /** The findings for the first j statements of a body, in order. */
  ghost function NoEffectFindings(body: seq<Expr>, isTopLevel: bool, isFunc: bool, sp: SpanOf, j: nat): seq<Finding>
    requires j <= |body|
    decreases j
  {
    if j == 0 then []
    else NoEffectFindings(body, isTopLevel, isFunc, sp, j - 1)
         + (if NoEffectFlags(body, j - 1, isTopLevel, isFunc) then [NoEffectFinding(body[j - 1], sp)] else [])
  }

  lemma SeenNonCommentStep(body: seq<Expr>, j: nat)
    requires j < |body|
    ensures SeenNonComment(body, j + 1) <==> SeenNonComment(body, j) || !body[j].CommentBlock?
  {
    if SeenNonComment(body, j + 1) && !SeenNonComment(body, j) {
      var k :| 0 <= k < j + 1 && !body[k].CommentBlock?;
      assert k == j;
    }
  }

  /** noEffectStatementsCheck: appends the findings for one body to `findings`. */
  method NoEffectStatementsCheck(body: seq<Expr>, isTopLevel: bool, isFunc: bool, sp: SpanOf, findings0: seq<Finding>)
    returns (findings: seq<Finding>)
    ensures findings == findings0 + NoEffectFindings(body, isTopLevel, isFunc, sp, |body|)
  {
    findings := findings0;
    var seenNonComment := false;
    var j := 0;
    while j < |body|
      invariant j <= |body| && (seenNonComment <==> SeenNonComment(body, j))
      invariant findings == findings0 + NoEffectFindings(body, isTopLevel, isFunc, sp, j)
    {
      var stmt := body[j];
      SeenNonCommentStep(body, j);
      ghost var flags := NoEffectFlags(body, j, isTopLevel, isFunc);
      if stmt.StringExpr? && !seenNonComment && (isTopLevel || isFunc) {
        seenNonComment := true;
        j := j + 1;
        continue;
      }
      if !stmt.CommentBlock? {
        seenNonComment := true;
      }
      if NoEffectExempt(stmt) {
        j := j + 1;
        continue;
      }
      if stmt.Comprehension? {
        if !isTopLevel || stmt.curly {
          findings := findings + [NoEffectFinding(stmt, sp)];
        }
        j := j + 1;
        continue;
      }
      findings := findings + [NoEffectFinding(stmt, sp)];
      j := j + 1;
    }
  }

  /** The statement kinds the check exempts are never reported, wherever they stand. */
  lemma ExemptNeverFlagged(body: seq<Expr>, i: nat, isTopLevel: bool, isFunc: bool)
    requires i < |body| && NoEffectExempt(body[i])
    ensures !NoEffectFlags(body, i, isTopLevel, isFunc)
  {
  }

  /** A string with only comments before it is not reported at top level or in a function, and is elsewhere. */
  lemma DocstringNotFlagged(body: seq<Expr>, i: nat, isTopLevel: bool, isFunc: bool)
    requires i < |body| && body[i].StringExpr?
    requires forall k :: 0 <= k < i ==> body[k].CommentBlock?
    ensures NoEffectFlags(body, i, isTopLevel, isFunc) <==> !isTopLevel && !isFunc
  {
  }

  /** A second string is reported even at top level: only the first can be a docstring. */
  lemma SecondStringFlagged(body: seq<Expr>, isTopLevel: bool, isFunc: bool)
    requires |body| >= 2 && body[0].StringExpr? && body[1].StringExpr?
    ensures NoEffectFlags(body, 1, isTopLevel, isFunc)
  {
    assert !body[0].CommentBlock?;
  }

  /** `x == y` alone on a line is reported; `x += y` in the BinaryExpr form is not. */
  lemma ComparisonFlaggedUpdateNot(body: seq<Expr>, i: nat, isTopLevel: bool, isFunc: bool)
    requires i < |body| && body[i].BinaryExpr?
    ensures body[i].op == "==" ==> NoEffectFlags(body, i, isTopLevel, isFunc)
    ensures body[i].op == "+=" ==> !NoEffectFlags(body, i, isTopLevel, isFunc)
  {
    if body[i].op == "+=" {
      assert HasSuffix(body[i].op, "=") by {
        assert body[i].op[|body[i].op| - 1..] == "=";
      }
    }
    if body[i].op == "==" {
      assert !IsDocstring(body, i, isTopLevel, isFunc);
    }
  }

  /** A list comprehension is reported inside blocks, a set comprehension everywhere, neither at top level for a list. */
  lemma ComprehensionFlagging(body: seq<Expr>, i: nat, isTopLevel: bool, isFunc: bool)
    requires i < |body| && body[i].Comprehension?
    ensures NoEffectFlags(body, i, isTopLevel, isFunc) <==> !isTopLevel || body[i].curly
  {
  }

  /**
   * The parser builds `x = 1` as an AssignExpr and `pass` as a BranchStmt;
   * neither is among the exempt kinds, so after the first statement each is
   * reported as a statement without effect.
   */
  lemma ParsedAssignmentHasNoEffect(body: seq<Expr>, i: nat, isTopLevel: bool, isFunc: bool,
                                    x: Expr, pos: Position, y: Expr, sp: SpanOf)
    requires 0 < i < |body| && !body[0].CommentBlock?
    requires body[i] == Nodes.Binary(x, pos, "=", y, sp) || body[i].BranchStmt?
    ensures NoEffectFlags(body, i, isTopLevel, isFunc)
  {
    assert SeenNonComment(body, i);
  }

  /** The findings for the bodies of one node build.Walk visits: only block statements have any. */
  ghost function BlockFindingsOf(e: Expr, sp: SpanOf): seq<Finding>
  {
    match e
    case ForStmt(_, _, _, _, body) => NoEffectFindings(body, false, false, sp, |body|)
    case DefStmt(_, _, _, _, body, _, _, _) => NoEffectFindings(body, false, true, sp, |body|)
    case IfStmt(_, _, _, t, _, fb) => NoEffectFindings(t, false, false, sp, |t|) + NoEffectFindings(fb, false, false, sp, |fb|)
    case _ => []
  }

  /** The findings for the first j nodes build.Walk visits, in order. */
  ghost function BlockFindings(nodes: seq<Expr>, sp: SpanOf, j: nat): seq<Finding>
    requires j <= |nodes|
    decreases j
  {
    if j == 0 then [] else BlockFindings(nodes, sp, j - 1) + BlockFindingsOf(nodes[j - 1], sp)
  }

  /** The callback of noEffectWarning for one node: a for body, a function body, or both branches of an if. */
  method CheckBlock(e: Expr, sp: SpanOf, findings0: seq<Finding>) returns (findings: seq<Finding>)
    ensures findings == findings0 + BlockFindingsOf(e, sp)
  {
    findings := findings0;
    match e {
      case ForStmt(_, _, _, _, body) =>
        findings := NoEffectStatementsCheck(body, false, false, sp, findings);
      case DefStmt(_, _, _, _, body, _, _, _) =>
        findings := NoEffectStatementsCheck(body, false, true, sp, findings);
      case IfStmt(_, _, _, t, _, fb) =>
        findings := NoEffectStatementsCheck(t, false, false, sp, findings);
        findings := NoEffectStatementsCheck(fb, false, false, sp, findings);
        Assoc(findings0, NoEffectFindings(t, false, false, sp, |t|), NoEffectFindings(fb, false, false, sp, |fb|));
      case _ =>
    }
  }

  /** The build.Walk part of noEffectWarning: the callback applied to each node in turn. */
  method CheckBlocks(nodes: seq<Expr>, sp: SpanOf, findings0: seq<Finding>) returns (findings: seq<Finding>)
    ensures findings == findings0 + BlockFindings(nodes, sp, |nodes|)
  {
    findings := findings0;
    var j := 0;
    while j < |nodes|
      invariant j <= |nodes| && findings == findings0 + BlockFindings(nodes, sp, j)
    {
      ghost var done := BlockFindings(nodes, sp, j);
      findings := CheckBlock(nodes[j], sp, findings);
      Assoc(findings0, done, BlockFindingsOf(nodes[j], sp));
      j := j + 1;
    }
  }

  /**
   * noEffectWarning: the top-level statements, then the body of every block
   * statement in the order build.Walk visits them (`nodes`, as Walk is not
   * part of this model).
   */
  method NoEffectWarning(f: File, nodes: seq<Expr>, sp: SpanOf) returns (findings: seq<Finding>)
    ensures findings == NoEffectFindings(f.stmt, true, false, sp, |f.stmt|) + BlockFindings(nodes, sp, |nodes|)
  {
    findings := NoEffectStatementsCheck(f.stmt, true, false, sp, []);
    findings := CheckBlocks(nodes, sp, findings);
  }

  // ---------------------------------------------------------------------------
  // integer-division
  // ---------------------------------------------------------------------------

  /** The nodes this check rewrites: a BinaryExpr with operator "/" or "/=". */
  predicate IsIntegerDivision(e: Expr)
  {
    e.BinaryExpr? && (e.op == "/" || e.op == "/=")
  }

  /** The node with "/" put in front of its operator; nothing else changes. */
  function FixedDivision(e: Expr): (r: Expr)
    requires e.BinaryExpr?
  {
    BinaryExpr(e.com, e.x, e.opStart, "/" + e.op, e.lineBreak, e.y)
  }

  function DivisionFinding(e: Expr, sp: SpanOf): Finding
    requires e.BinaryExpr?
  {
    MakeFinding(sp(e).start, sp(e).end, "integer-division",
                "The \"" + e.op + "\" operator for integer division is deprecated in favor of \"/" + e.op + "\".", true, None)
  }

  /** One finding per integer division among the first j nodes, in walk order. */
  function DivisionFindings(nodes: seq<Expr>, sp: SpanOf, j: nat): seq<Finding>
    requires j <= |nodes|
    decreases j
  {
    if j == 0 then []
    else DivisionFindings(nodes, sp, j - 1) + (if IsIntegerDivision(nodes[j - 1]) then [DivisionFinding(nodes[j - 1], sp)] else [])
  }

  /** What the check leaves of a node: rewritten with fix when it divides, else unchanged. */
  function DivisionFixed(e: Expr, fix: bool): Expr
  {
    if fix && IsIntegerDivision(e) then FixedDivision(e) else e
  }

  /**
   * integerDivisionWarning of warn.go over the nodes build.Walk visits
   * (`nodes`): with fix each division operator is rewritten and nothing is
   * reported; without fix each is reported and nothing changes.
   */
  method IntegerDivisionWarning(nodes: seq<Expr>, fix: bool, sp: SpanOf) returns (visited: seq<Expr>, findings: seq<Finding>)
    ensures |visited| == |nodes|
    ensures forall k :: 0 <= k < |nodes| ==> visited[k] == DivisionFixed(nodes[k], fix)
    ensures findings == if fix then [] else DivisionFindings(nodes, sp, |nodes|)
  {
    visited, findings := [], [];
    var j := 0;
    while j < |nodes|
      invariant j <= |nodes| && |visited| == j
      invariant forall k :: 0 <= k < j ==> visited[k] == DivisionFixed(nodes[k], fix)
      invariant findings == if fix then [] else DivisionFindings(nodes, sp, j)
    {
      var e := nodes[j];
      if e.BinaryExpr? && (e.op == "/" || e.op == "/=") {
        if fix {
          e := BinaryExpr(e.com, e.x, e.opStart, "/" + e.op, e.lineBreak, e.y);
        } else {
          findings := findings + [DivisionFinding(e, sp)];
        }
      }
      visited := visited + [e];
      j := j + 1;
    }
  }

  /** The fix turns "/" into "//" and "/=" into "//=", and keeps operands, position and comments. */
  lemma FixedDivisionOperator(e: Expr)
    requires IsIntegerDivision(e)
    ensures var r := FixedDivision(e);
      && r.BinaryExpr? && (e.op == "/" ==> r.op == "//") && (e.op == "/=" ==> r.op == "//=")
      && r.com == e.com && r.x == e.x && r.y == e.y && r.opStart == e.opStart && r.lineBreak == e.lineBreak
  {
  }

  /** Fixed nodes are no longer divisions in the old sense: a second run reports nothing. */
  lemma {:induction false} DivisionFixIdempotent(nodes: seq<Expr>, fixed: seq<Expr>, sp: SpanOf, j: nat)
    requires j <= |nodes| == |fixed|
    requires forall k :: 0 <= k < |nodes| ==> fixed[k] == DivisionFixed(nodes[k], true)
    ensures DivisionFindings(fixed, sp, j) == []
    decreases j
  {
    if j > 0 {
      DivisionFixIdempotent(nodes, fixed, sp, j - 1);
      var e := nodes[j - 1];
      if IsIntegerDivision(e) {
        var op := FixedDivision(e).op;
        assert op == "//" || op == "//=";
        assert op[1] == '/';
      }
    }
  }

  /** The parser builds `x /= 2` as an AssignExpr, which this check never reports or rewrites. */
  lemma ParsedUpdateNotDivision(x: Expr, pos: Position, y: Expr, sp: SpanOf)
    ensures !IsIntegerDivision(Nodes.Binary(x, pos, "/=", y, sp))
    ensures IsIntegerDivision(Nodes.Binary(x, pos, "/", y, sp))
  {
  }

  // ---------------------------------------------------------------------------
  // constant-glob
  // ---------------------------------------------------------------------------

  /** A pattern without a wildcard: a string literal with no '*'. */
  predicate IsConstantPattern(e: Expr)
  {
    e.StringExpr? && !HasChar(e.value, '*')
  }

  /** The first constant pattern of a list, from index i on. */
  function FirstConstant(patterns: seq<Expr>, i: nat): (r: Option<nat>)
    requires i <= |patterns|
    ensures r.Some? ==> i <= r.value < |patterns| && IsConstantPattern(patterns[r.value])
    ensures r.Some? ==> forall k :: i <= k < r.value ==> !IsConstantPattern(patterns[k])
    ensures r.None? ==> forall k :: i <= k < |patterns| ==> !IsConstantPattern(patterns[k])
    decreases |patterns| - i
  {
    if i == |patterns| then None
    else if IsConstantPattern(patterns[i]) then Some(i)
    else FirstConstant(patterns, i + 1)
  }

  const ConstantGlobTail := "` has no wildcard ('*'). Constant patterns can be error-prone, move the file outside the glob."

  function GlobFinding(str: Expr, sp: SpanOf): Finding
    requires str.StringExpr?
  {
    MakeFinding(sp(str).start, sp(str).end, "constant-glob", "Glob pattern `" + str.value + ConstantGlobTail, true, None)
  }

  /** The finding for one glob call: its first constant pattern, when the first argument is a list literal. */
  function GlobCallFindings(call: Expr, sp: SpanOf): (r: seq<Finding>)
    requires call.CallExpr?
    ensures |r| <= 1
  {
    if |call.list| == 0 || !call.list[0].ListExpr? then []
    else
      var patterns := call.list[0].list;
      match FirstConstant(patterns, 0)
      case Some(k) => [GlobFinding(patterns[k], sp)]
      case None => []
  }

  /** The findings for the first j glob calls, in visiting order. */
  function GlobFindings(calls: seq<Expr>, sp: SpanOf, j: nat): seq<Finding>
    requires j <= |calls| && forall k :: 0 <= k < |calls| ==> calls[k].CallExpr?
    decreases j
  {
    if j == 0 then [] else GlobFindings(calls, sp, j - 1) + GlobCallFindings(calls[j - 1], sp)
  }

  /** The loop of the callback over one glob's patterns, stopping at the first constant one. */
  method ScanGlob(call: Expr, sp: SpanOf) returns (found: seq<Finding>)
    requires call.CallExpr?
    ensures found == GlobCallFindings(call, sp)
  {
    if |call.list| == 0 {
      return [];
    }
    var patterns := call.list[0];
    if !patterns.ListExpr? {
      return [];
    }
    var i := 0;
    while i < |patterns.list|
      invariant i <= |patterns.list|
      invariant FirstConstant(patterns.list, 0) == FirstConstant(patterns.list, i)
    {
      var expr := patterns.list[i];
      if !expr.StringExpr? {
        i := i + 1;
        continue;
      }
      if !HasChar(expr.value, '*') {
        return [GlobFinding(expr, sp)];
      }
      i := i + 1;
    }
    return [];
  }

  /**
   * constantGlobWarning over the calls to glob that edit.EditFunction visits
   * (`calls`; EditFunction is not part of this model).
   */
  method ConstantGlobWarning(calls: seq<Expr>, sp: SpanOf) returns (findings: seq<Finding>)
    requires forall k :: 0 <= k < |calls| ==> calls[k].CallExpr?
    ensures findings == GlobFindings(calls, sp, |calls|)
    ensures |findings| <= |calls|
  {
    findings := [];
    var j := 0;
    while j < |calls|
      invariant j <= |calls| && findings == GlobFindings(calls, sp, j) && |findings| <= j
    {
      var found := ScanGlob(calls[j], sp);
      findings := findings + found;
      j := j + 1;
    }
  }

  /** A reported pattern has no '*', and every string pattern before it in the list has one. */
  lemma GlobFindingIsFirstConstant(call: Expr, sp: SpanOf)
    requires call.CallExpr? && GlobCallFindings(call, sp) != []
    ensures |call.list| > 0 && call.list[0].ListExpr?
    ensures var patterns := call.list[0].list;
      exists k :: 0 <= k < |patterns| && patterns[k].StringExpr? && !HasChar(patterns[k].value, '*')
        && GlobCallFindings(call, sp) == [GlobFinding(patterns[k], sp)]
        && forall i :: 0 <= i < k && patterns[i].StringExpr? ==> HasChar(patterns[i].value, '*')
  {
    var patterns := call.list[0].list;
    var k := FirstConstant(patterns, 0).value;
    assert forall i :: 0 <= i < k ==> !IsConstantPattern(patterns[i]);
  }

  // ---------------------------------------------------------------------------
  // positional-args
  // ---------------------------------------------------------------------------

  /** The functions whose calls may take positional arguments. */
  const PositionalFunctions: set<string> := {"distribs", "exports_files", "licenses", "print", "vardef"}

  /** An argument this check takes for a keyword argument: a BinaryExpr "=". */
  predicate IsKeywordArg(arg: Expr)
  {
    arg.BinaryExpr? && arg.op == "="
  }

  /** The first argument from index i on that is not a keyword argument. */
  function FirstPositional(args: seq<Expr>, i: nat): (r: Option<nat>)
    requires i <= |args|
    ensures r.Some? ==> i <= r.value < |args| && !IsKeywordArg(args[r.value])
    ensures r.Some? ==> forall k :: i <= k < r.value ==> IsKeywordArg(args[k])
    ensures r.None? ==> forall k :: i <= k < |args| ==> IsKeywordArg(args[k])
    decreases |args| - i
  {
    if i == |args| then None
    else if !IsKeywordArg(args[i]) then Some(i)
    else FirstPositional(args, i + 1)
  }

  const PositionalMessage := "All calls to rules or macros should pass arguments by keyword (arg_name=value) syntax."

  function PositionalFinding(arg: Expr, sp: SpanOf): Finding
  {
    MakeFinding(sp(arg).start, sp(arg).end, "positional-args", PositionalMessage, true, None)
  }

  /** The finding for one statement: its first positional argument, if it is a call of a named function outside the exempt set. */
  function PositionalArgs(stmt: Expr, sp: SpanOf): Option<Finding>
  {
    if !stmt.CallExpr? || !stmt.x.Ident? || stmt.x.name in PositionalFunctions then None
    else match FirstPositional(stmt.list, 0)
      case Some(k) => Some(PositionalFinding(stmt.list[k], sp))
      case None => None
  }

  /** positionalArgumentsWarning for one top-level statement (the package name is not used). */
  method PositionalArgumentsWarning(f: File, pkg: string, stmt: Expr, sp: SpanOf) returns (finding: Option<Finding>)
    ensures finding == PositionalArgs(stmt, sp)
  {
    if !stmt.CallExpr? || !stmt.x.Ident? || stmt.x.name in PositionalFunctions {
      return None;
    }
    var i := 0;
    while i < |stmt.list|
      invariant i <= |stmt.list| && FirstPositional(stmt.list, 0) == FirstPositional(stmt.list, i)
    {
      var arg := stmt.list[i];
      if arg.BinaryExpr? && arg.op == "=" {
        i := i + 1;
        continue;
      }
      return Some(PositionalFinding(arg, sp));
    }
    return None;
  }

  /** A finding points at an argument that is not `name = value`, after only keyword arguments. */
  lemma PositionalFindingMeans(stmt: Expr, sp: SpanOf)
    requires PositionalArgs(stmt, sp).Some?
    ensures stmt.CallExpr? && stmt.x.Ident? && stmt.x.name !in PositionalFunctions
    ensures exists k ::
              && 0 <= k < |stmt.list| && !IsKeywordArg(stmt.list[k])
              && PositionalArgs(stmt, sp) == Some(PositionalFinding(stmt.list[k], sp))
              && forall i :: 0 <= i < k ==> IsKeywordArg(stmt.list[i])
  {
    var k := FirstPositional(stmt.list, 0).value;
    assert !IsKeywordArg(stmt.list[k]);
  }

  /** A call whose arguments are all `name = value` BinaryExprs is never reported. */
  lemma KeywordCallNotFlagged(stmt: Expr, sp: SpanOf)
    requires stmt.CallExpr? && forall k :: 0 <= k < |stmt.list| ==> IsKeywordArg(stmt.list[k])
    ensures PositionalArgs(stmt, sp).None?
  {
    if stmt.x.Ident? && stmt.x.name !in PositionalFunctions {
      assert FirstPositional(stmt.list, 0).None?;
    }
  }

  /** The parser builds `name = value` arguments as AssignExprs, so a parsed keyword argument is reported as positional. */
  lemma ParsedKeywordArgFlagged(stmt: Expr, x: Expr, pos: Position, y: Expr, sp: SpanOf)
    requires stmt.CallExpr? && stmt.x.Ident? && stmt.x.name !in PositionalFunctions
    requires |stmt.list| > 0 && stmt.list[0] == Nodes.Binary(x, pos, "=", y, sp)
    ensures PositionalArgs(stmt, sp) == Some(PositionalFinding(stmt.list[0], sp))
  {
  }
}
