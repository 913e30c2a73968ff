/**
 * Layout flags computed by the parser from node spans (build/parse.y.go):
 * whether a bracketed list is forced compact, or forced onto several lines.
 * They only read line numbers, so a printer may recompute them after a fix.
 */
module Layout {
  import opened Syntax

  /**
   * A literal, string or identifier; a unary operator over a literal or an
   * identifier; or an empty list, tuple, dict or set.
   */
  predicate IsSimpleExpression(e: Expr): (r: bool)
    ensures r && e.UnaryExpr? ==> IsSimpleExpression(e.x) && !e.x.UnaryExpr?
    ensures e.ListExpr? || e.TupleExpr? || e.SetExpr? || e.DictExpr? ==> (r <==> e.list == [])
    ensures e.BinaryExpr? || e.AssignExpr? || e.CallExpr? || e.ParenExpr? ==> !r
  {
    match e
    case LiteralExpr(_, _, _) => true
    case StringExpr(_, _, _, _, _, _) => true
    case Ident(_, _, _) => true
    case UnaryExpr(_, _, _, x) => x.LiteralExpr? || x.Ident?
    case ListExpr(_, _, list, _, _) => |list| == 0
    case TupleExpr(_, _, list, _, _, _, _) => |list| == 0
    case DictExpr(_, _, list, _, _) => |list| == 0
    case SetExpr(_, _, list, _, _) => |list| == 0
    case _ => false
  }

  /**
   * When forceCompact holds: at least two elements, all simple, the first
   * starting on the line of the opening bracket, each later one starting on
   * the line where the previous one ended, and the closing bracket on the
   * line where the last one ended.
   */
  predicate CompactLayout(start: Position, list: seq<Expr>, end: Position, sp: SpanOf)
  {
    && |list| >= 2
    && (forall i :: 0 <= i < |list| ==> IsSimpleExpression(list[i]))
    && sp(list[0]).start.line == start.line
    && (forall i :: 0 < i < |list| ==> sp(list[i]).start.line == sp(list[i - 1]).end.line)
    && end.line == sp(list[|list| - 1]).end.line
  }

  /** forceCompact: the scan with a running `line`, stopping at the first violation. */
  method ForceCompact(start: Position, list: seq<Expr>, end: Position, sp: SpanOf) returns (r: bool)
    ensures r == CompactLayout(start, list, end, sp)
  {
    if |list| <= 1 {
      return false;
    }
    var line := start.line;
    var i := 0;
    while i < |list|
      invariant 0 <= i <= |list|
      invariant i == 0 ==> line == start.line
      invariant 0 < i ==> line == sp(list[i - 1]).end.line && sp(list[0]).start.line == start.line
      invariant forall k :: 0 < k < i ==> sp(list[k]).start.line == sp(list[k - 1]).end.line
      invariant forall k :: 0 <= k < i ==> IsSimpleExpression(list[k])
    {
      var s := sp(list[i]);
      if s.start.line != line {
        return false;
      }
      line := s.end.line;
      if !IsSimpleExpression(list[i]) {
        return false;
      }
      i := i + 1;
    }
    return end.line == line;
  }

  /** forceMultiLine: explicit line breaks around zero or one element. */
  predicate ForceMultiLine(start: Position, list: seq<Expr>, end: Position, sp: SpanOf): (r: bool)
    ensures r ==> |list| <= 1
    ensures list == [] ==> (r <==> start.line != end.line)
    ensures |list| == 1 ==> (r <==> !(start.line == sp(list[0]).start.line && sp(list[0]).end.line == end.line))
  {
    if |list| > 1 then false
    else if |list| == 0 then start.line != end.line
    else start.line != sp(list[0]).start.line || end.line != sp(list[0]).end.line
  }

  /**
   * The pieces of a comprehension in file order: the opening bracket, the
   * body, each clause, the closing bracket.
   */
  function ComprehensionPieces(start: Position, body: Expr, clauses: seq<Expr>, end: Position, sp: SpanOf): (p: seq<Span>)
    ensures |p| == |clauses| + 3
  {
    [Span(start, start), sp(body)]
      + seq(|clauses|, i requires 0 <= i < |clauses| => sp(clauses[i]))
      + [Span(end, end)]
  }

  /** Some piece ends on a different line than the next piece starts. */
  predicate HasLineBreak(pieces: seq<Span>)
  {
    exists i :: 0 <= i < |pieces| - 1 && pieces[i].end.line != pieces[i + 1].start.line
  }

  /** forceMultiLineComprehension: the scan with a running `previousEnd`. */
  method ForceMultiLineComprehension(start: Position, body: Expr, clauses: seq<Expr>, end: Position, sp: SpanOf)
    returns (r: bool)
    ensures r == HasLineBreak(ComprehensionPieces(start, body, clauses, end, sp))
  {
    ghost var pieces := ComprehensionPieces(start, body, clauses, end, sp);
    var bodySpan := sp(body);
    if start.line != bodySpan.start.line {
      assert pieces[0].end.line != pieces[1].start.line;
      return true;
    }
    var previousEnd := bodySpan.end;
    var i := 0;
    while i < |clauses|
      invariant 0 <= i <= |clauses|
      invariant previousEnd == pieces[i + 1].end
      invariant forall k :: 0 <= k < i + 1 ==> pieces[k].end.line == pieces[k + 1].start.line
    {
      var clauseSpan := sp(clauses[i]);
      assert pieces[i + 2] == clauseSpan;
      if previousEnd.line != clauseSpan.start.line {
        assert pieces[i + 1].end.line != pieces[i + 2].start.line;
        return true;
      }
      previousEnd := clauseSpan.end;
      i := i + 1;
    }
    var last := |clauses| + 1;
    assert pieces[last + 1] == Span(end, end);
    r := previousEnd.line != end.line;
    if r {
      assert pieces[last].end.line != pieces[last + 1].start.line;
    }
  }

  /** The reason for the lower bound: a list of fewer than two elements is never forced compact. */
  lemma CompactNeedsTwoElements(start: Position, list: seq<Expr>, end: Position, sp: SpanOf)
    requires |list| < 2
    ensures !CompactLayout(start, list, end, sp)
  {
  }

  /** A call, a dict entry, a non-empty collection or any other compound element rules out compact mode. */
  lemma CompactRejectsCompoundElement(start: Position, list: seq<Expr>, end: Position, sp: SpanOf, k: nat)
    requires k < |list| && !IsSimpleExpression(list[k])
    ensures !CompactLayout(start, list, end, sp)
  {
  }

  /** Simple elements that all sit on the bracket line are forced compact. */
  lemma CompactOnOneLine(start: Position, list: seq<Expr>, end: Position, sp: SpanOf)
    requires |list| >= 2
    requires forall i :: 0 <= i < |list| ==> IsSimpleExpression(list[i])
    requires forall i :: 0 <= i < |list| ==> sp(list[i]).start.line == start.line && sp(list[i]).end.line == start.line
    requires end.line == start.line
    ensures CompactLayout(start, list, end, sp)
  {
  }

  /** The two flags are never both set: compact needs two elements, multi-line at most one. */
  lemma CompactExcludesMultiLine(start: Position, list: seq<Expr>, end: Position, sp: SpanOf)
    ensures !(CompactLayout(start, list, end, sp) && ForceMultiLine(start, list, end, sp))
  {
  }

  /** For one element and no clauses, the comprehension rule and the single-element rule agree. */
  lemma MultiLineSingleIsComprehensionRule(start: Position, e: Expr, end: Position, sp: SpanOf)
    ensures ForceMultiLine(start, [e], end, sp) == HasLineBreak(ComprehensionPieces(start, e, [], end, sp))
  {
    var p := ComprehensionPieces(start, e, [], end, sp);
    assert p == [Span(start, start), sp(e), Span(end, end)];
    if ForceMultiLine(start, [e], end, sp) {
      if start.line != sp(e).start.line {
        assert p[0].end.line != p[1].start.line;
      } else {
        assert p[1].end.line != p[2].start.line;
      }
    }
  }

  /**
   * Elements may span lines and still be compact, as long as each one starts
   * where the previous one ended: here a two-line string followed by a name.
   */
  lemma CompactAllowsMultiLineElement()
    ensures
      var s := StringExpr(NoComments, Position(1, 3, 2), "a\nb", true, Position(2, 4, 10), "\"\"\"a\nb\"\"\"");
      var n := Ident(NoComments, Position(2, 6, 12), "c");
      var sp: SpanOf := e => if e == s then Span(Position(1, 3, 2), Position(2, 4, 10))
                             else Span(Position(2, 6, 12), Position(2, 7, 13));
      CompactLayout(Position(1, 2, 1), [s, n], Position(2, 7, 13), sp)
  {
  }
}
