/**
 * The finding selectors of warn/warn_operation.go: which nodes of a file are
 * reported for dictionary concatenation, string iteration and integer
 * division, and the replacement node offered for integer division.  The
 * nodes arrive in the order the walk visits them, and the inferred types are
 * an input: detectTypes is not part of this model.
 */
module WarnOperation {
  import opened Wrappers
  import opened Syntax
  import Nodes

  /** The inferred types the selectors look at; every other type is OtherType, as is a node with no entry. */
  datatype TypeKind = Dict | String | OtherType

  /** The result of detectTypes, as a lookup. */
  type Types = Expr -> TypeKind

  function TypeOf(types: Types, e: Expr): TypeKind
  {
    types(e)
  }

  /** A replacement: the node at the reported place, `original`, is to become `updated`. */
  datatype LinterReplacement = LinterReplacement(original: Expr, updated: Expr)

  /** What makeLinterFinding is given: the reported node, the message and an optional replacement. */
  datatype LinterFinding = LinterFinding(node: Expr, message: string, replacement: Option<LinterReplacement>)

  // ---------------------------------------------------------------------------
  // dictionary concatenation
  // ---------------------------------------------------------------------------

  const DictMessage := "Dictionary concatenation is deprecated."

  /** The callback of dictionaryConcatenationWarning for one node. */
  function DictFindingsOf(e: Expr, types: Types): seq<LinterFinding>
  {
    match e
    case BinaryExpr(_, x, _, op, _, y) =>
      if op != "+" then []
      else if TypeOf(types, x) == Dict || TypeOf(types, y) == Dict then [LinterFinding(e, DictMessage, None)]
      else []
    case AssignExpr(_, lhs, _, op, _, rhs) =>
      if op != "+=" then []
      else if TypeOf(types, lhs) == Dict || TypeOf(types, rhs) == Dict then [LinterFinding(e, DictMessage, None)]
      else []
    case _ => []
  }

  /** The findings for the first j visited nodes, in visiting order. */
  function DictFindings(nodes: seq<Expr>, types: Types, j: nat): seq<LinterFinding>
    requires j <= |nodes|
    decreases j
  {
    if j == 0 then [] else DictFindings(nodes, types, j - 1) + DictFindingsOf(nodes[j - 1], types)
  }

  /** dictionaryConcatenationWarning over the visited nodes. */
  method DictionaryConcatenationWarning(nodes: seq<Expr>, types: Types) returns (findings: seq<LinterFinding>)
    ensures findings == DictFindings(nodes, types, |nodes|)
  {
    findings := [];
    var j := 0;
    while j < |nodes|
      invariant j <= |nodes| && findings == DictFindings(nodes, types, j)
    {
      var expr := nodes[j];
      match expr {
        case BinaryExpr(_, x, _, op, _, y) =>
          if op == "+" && (TypeOf(types, x) == Dict || TypeOf(types, y) == Dict) {
            findings := findings + [LinterFinding(expr, DictMessage, None)];
          }
        case AssignExpr(_, lhs, _, op, _, rhs) =>
          if op == "+=" && (TypeOf(types, lhs) == Dict || TypeOf(types, rhs) == Dict) {
            findings := findings + [LinterFinding(expr, DictMessage, None)];
          }
        case _ =>
      }
      j := j + 1;
    }
  }

  /** A node is reported exactly when it is `+` with a dict operand or `+=` with a dict side, and then once, as itself. */
  lemma DictConcatenationFlags(e: Expr, types: Types)
    ensures DictFindingsOf(e, types) != [] <==>
              || (e.BinaryExpr? && e.op == "+" && (TypeOf(types, e.x) == Dict || TypeOf(types, e.y) == Dict))
              || (e.AssignExpr? && e.op == "+=" && (TypeOf(types, e.lhs) == Dict || TypeOf(types, e.rhs) == Dict))
    ensures DictFindingsOf(e, types) != [] ==> DictFindingsOf(e, types) == [LinterFinding(e, DictMessage, None)]
  {
  }

  /** No operator other than `+` and `+=` is ever reported, whatever the types. */
  lemma {:induction false} DictOnlyPlus(nodes: seq<Expr>, types: Types, j: nat)
    requires j <= |nodes|
    ensures forall w :: w in DictFindings(nodes, types, j) ==>
              (w.node.BinaryExpr? && w.node.op == "+") || (w.node.AssignExpr? && w.node.op == "+=")
    ensures forall w :: w in DictFindings(nodes, types, j) ==> w.node in nodes[..j]
    decreases j
  {
    if j > 0 {
      DictOnlyPlus(nodes, types, j - 1);
      assert nodes[..j] == nodes[..j - 1] + [nodes[j - 1]];
    }
  }

  // ---------------------------------------------------------------------------
  // string iteration
  // ---------------------------------------------------------------------------

  const StringMessage := "String iteration is deprecated."

  /** The functions whose single argument is checked. */
  const SingleArgFunctions: set<string> := {"all", "any", "reversed", "max", "min"}

  function StringFinding(e: Expr): LinterFinding
  {
    LinterFinding(e, StringMessage, None)
  }

  /** The findings for the arguments of zip among the first j: one per string-typed argument. */
  function ZipFindings(args: seq<Expr>, types: Types, j: nat): seq<LinterFinding>
    requires j <= |args|
    decreases j
  {
    if j == 0 then []
    else ZipFindings(args, types, j - 1) + (if TypeOf(types, args[j - 1]) == String then [StringFinding(args[j - 1])] else [])
  }

  /** The callback of stringIterationWarning for one node. */
  function StringFindingsOf(e: Expr, types: Types): seq<LinterFinding>
  {
    match e
    case ForStmt(_, _, _, x, _) => if TypeOf(types, x) == String then [StringFinding(x)] else []
    case ForClause(_, _, _, _, x) => if TypeOf(types, x) == String then [StringFinding(x)] else []
    case CallExpr(_, fn, _, list, _, _, _) =>
      if !fn.Ident? then []
      else if fn.name in SingleArgFunctions then
        if |list| != 1 then []
        else if TypeOf(types, list[0]) == String then [StringFinding(list[0])]
        else []
      else if fn.name == "zip" then ZipFindings(list, types, |list|)
      else []
    case _ => []
  }

  function StringFindings(nodes: seq<Expr>, types: Types, j: nat): seq<LinterFinding>
    requires j <= |nodes|
    decreases j
  {
    if j == 0 then [] else StringFindings(nodes, types, j - 1) + StringFindingsOf(nodes[j - 1], types)
  }

  /** The loop over the arguments of zip. */
  method ZipCheck(args: seq<Expr>, types: Types, findings0: seq<LinterFinding>) returns (findings: seq<LinterFinding>)
    ensures findings == findings0 + ZipFindings(args, types, |args|)
  {
    findings := findings0;
    var i := 0;
    while i < |args|
      invariant i <= |args| && findings == findings0 + ZipFindings(args, types, i)
    {
      var arg := args[i];
      if TypeOf(types, arg) == String {
        findings := findings + [StringFinding(arg)];
      }
      i := i + 1;
    }
  }

  /** The callback for one node. */
  method StringCheck(expr: Expr, types: Types, findings0: seq<LinterFinding>) returns (findings: seq<LinterFinding>)
    ensures findings == findings0 + StringFindingsOf(expr, types)
  {
    findings := findings0;
    match expr {
      case ForStmt(_, _, _, x, _) =>
        if TypeOf(types, x) == String {
          findings := findings + [StringFinding(x)];
        }
      case ForClause(_, _, _, _, x) =>
        if TypeOf(types, x) == String {
          findings := findings + [StringFinding(x)];
        }
      case CallExpr(_, fn, _, list, _, _, _) =>
        if !fn.Ident? {
          return;
        }
        if fn.name in SingleArgFunctions {
          if |list| != 1 {
            return;
          }
          if TypeOf(types, list[0]) == String {
            findings := findings + [StringFinding(list[0])];
          }
        } else if fn.name == "zip" {
          findings := ZipCheck(list, types, findings);
        }
      case _ =>
    }
  }

  /** stringIterationWarning over the visited nodes. */
  method StringIterationWarning(nodes: seq<Expr>, types: Types) returns (findings: seq<LinterFinding>)
    ensures findings == StringFindings(nodes, types, |nodes|)
  {
    findings := [];
    var j := 0;
    while j < |nodes|
      invariant j <= |nodes| && findings == StringFindings(nodes, types, j)
    {
      findings := StringCheck(nodes[j], types, findings);
      j := j + 1;
    }
  }

  /** zip reports exactly its string-typed arguments, in order. */
  lemma {:induction false} ZipReportsStrings(args: seq<Expr>, types: Types, j: nat)
    requires j <= |args|
    ensures forall w :: w in ZipFindings(args, types, j) ==> w.node in args[..j] && TypeOf(types, w.node) == String
    ensures forall k :: 0 <= k < j && TypeOf(types, args[k]) == String ==> StringFinding(args[k]) in ZipFindings(args, types, j)
    decreases j
  {
    if j > 0 {
      ZipReportsStrings(args, types, j - 1);
      assert args[..j] == args[..j - 1] + [args[j - 1]];
    }
  }

  /** The reported nodes of the other selectable shapes: the iterable of a loop, the only argument of all/any/reversed/max/min. */
  lemma StringIterationCases(e: Expr, types: Types)
    ensures (e.ForStmt? || e.ForClause?) ==>
              StringFindingsOf(e, types) == if TypeOf(types, e.x) == String then [StringFinding(e.x)] else []
    ensures e.CallExpr? && e.x.Ident? && e.x.name in SingleArgFunctions ==>
              StringFindingsOf(e, types) == if |e.list| == 1 && TypeOf(types, e.list[0]) == String then [StringFinding(e.list[0])] else []
    ensures e.CallExpr? && e.x.Ident? && e.x.name in SingleArgFunctions && |e.list| != 1 ==> StringFindingsOf(e, types) == []
    ensures !(e.ForStmt? || e.ForClause? || e.CallExpr?) ==> StringFindingsOf(e, types) == []
  {
  }

  // ---------------------------------------------------------------------------
  // integer division
  // ---------------------------------------------------------------------------

  const SlashMessage := "The \"/\" operator for integer division is deprecated in favor of \"//\"."
  const SlashAssignMessage := "The \"/=\" operator for integer division is deprecated in favor of \"//=\"."

  /** The callback of integerDivisionWarning for one node: a copy of it with the floor-division operator. */
  function DivisionFindingsOf(e: Expr): seq<LinterFinding>
  {
    match e
    case BinaryExpr(com, x, opStart, op, lineBreak, y) =>
      if op != "/" then []
      else [LinterFinding(e, SlashMessage, Some(LinterReplacement(e, BinaryExpr(com, x, opStart, "//", lineBreak, y))))]
    case AssignExpr(com, lhs, opPos, op, lineBreak, rhs) =>
      if op != "/=" then []
      else [LinterFinding(e, SlashAssignMessage, Some(LinterReplacement(e, AssignExpr(com, lhs, opPos, "//=", lineBreak, rhs))))]
    case _ => []
  }

  function DivisionFindings(nodes: seq<Expr>, j: nat): seq<LinterFinding>
    requires j <= |nodes|
    decreases j
  {
    if j == 0 then [] else DivisionFindings(nodes, j - 1) + DivisionFindingsOf(nodes[j - 1])
  }

  /** integerDivisionWarning over the visited nodes; the nodes themselves are left as they are. */
  method IntegerDivisionWarning(nodes: seq<Expr>) returns (findings: seq<LinterFinding>)
    ensures findings == DivisionFindings(nodes, |nodes|)
  {
    findings := [];
    var j := 0;
    while j < |nodes|
      invariant j <= |nodes| && findings == DivisionFindings(nodes, j)
    {
      var expr := nodes[j];
      match expr {
        case BinaryExpr(com, x, opStart, op, lineBreak, y) =>
          if op == "/" {
            var newBinary := BinaryExpr(com, x, opStart, "//", lineBreak, y);
            findings := findings + [LinterFinding(expr, SlashMessage, Some(LinterReplacement(expr, newBinary)))];
          }
        case AssignExpr(com, lhs, opPos, op, lineBreak, rhs) =>
          if op == "/=" {
            var newAssign := AssignExpr(com, lhs, opPos, "//=", lineBreak, rhs);
            findings := findings + [LinterFinding(expr, SlashAssignMessage, Some(LinterReplacement(expr, newAssign)))];
          }
        case _ =>
      }
      j := j + 1;
    }
  }

  /**
   * A node is reported exactly when it is a BinaryExpr "/" or an AssignExpr
   * "/=", once; the replacement is a copy of that node with "//" or "//=" and
   * nothing else changed.
   */
  lemma DivisionReplacement(e: Expr)
    ensures DivisionFindingsOf(e) != [] <==> (e.BinaryExpr? && e.op == "/") || (e.AssignExpr? && e.op == "/=")
    ensures DivisionFindingsOf(e) != [] ==>
              && |DivisionFindingsOf(e)| == 1
              && var w := DivisionFindingsOf(e)[0];
              && w.node == e && w.replacement.Some? && w.replacement.value.original == e
              && var u := w.replacement.value.updated;
              && u.com == e.com && u.lineBreak == e.lineBreak
              && (e.BinaryExpr? ==> u.BinaryExpr? && u.op == "//" && u.x == e.x && u.opStart == e.opStart && u.y == e.y)
              && (e.AssignExpr? ==> u.AssignExpr? && u.op == "//=" && u.lhs == e.lhs && u.opPos == e.opPos && u.rhs == e.rhs)
  {
  }

  /** The nodes the check is about: BinaryExpr "/" and AssignExpr "/=". */
  predicate IsDivision(e: Expr)
  {
    (e.BinaryExpr? && e.op == "/") || (e.AssignExpr? && e.op == "/=")
  }

  /** The division nodes of a sequence, in order. */
  function DivisionNodes(nodes: seq<Expr>): seq<Expr>
    decreases |nodes|
  {
    if nodes == [] then []
    else DivisionNodes(nodes[..|nodes| - 1]) + (if IsDivision(nodes[|nodes| - 1]) then [nodes[|nodes| - 1]] else [])
  }

  /** One finding per division node, in visiting order, each for exactly that node. */
  lemma {:induction false} DivisionFindingsPerNode(nodes: seq<Expr>, j: nat)
    requires j <= |nodes|
    ensures |DivisionFindings(nodes, j)| == |DivisionNodes(nodes[..j])|
    ensures forall i :: 0 <= i < |DivisionFindings(nodes, j)| ==> DivisionFindings(nodes, j)[i].node == DivisionNodes(nodes[..j])[i]
    decreases j
  {
    if j > 0 {
      DivisionFindingsPerNode(nodes, j - 1);
      assert nodes[..j][..j - 1] == nodes[..j - 1];
      DivisionReplacement(nodes[j - 1]);
    }
  }

  /** Applying a replacement leaves a node no later run reports. */
  lemma ReplacementNotReported(e: Expr)
    requires DivisionFindingsOf(e) != []
    ensures DivisionFindingsOf(DivisionFindingsOf(e)[0].replacement.value.updated) == []
  {
  }

  /** Unlike the check of warn/warn.go, this one reports `x /= 2` as the parser builds it. */
  lemma ParsedDivisionsReported(x: Expr, pos: Position, y: Expr, sp: SpanOf)
    ensures DivisionFindingsOf(Nodes.Binary(x, pos, "/", y, sp)) != []
    ensures DivisionFindingsOf(Nodes.Binary(x, pos, "/=", y, sp)) != []
  {
  }
}
