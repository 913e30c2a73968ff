/**
 * Node construction in the parser (build/parse.y.go): the `unary` and `binary`
 * helpers and the reduction actions that choose between node kinds —
 * `is not` / `not in`, paren versus tuple, unbracketed tuples, load arguments.
 */
module Nodes {
  import opened Wrappers
  import opened Syntax
  import opened Layout

  /** The operators for which `binary` builds an assignment rather than a binary expression. */
  const AssignOps: set<string> := {"=", "+=", "-=", "*=", "/=", "//=", "%=", "|="}

  /** unary: a UnaryExpr with the operator's position, the operator and the operand. */
  function Unary(pos: Position, op: string, x: Expr): (r: Expr)
    ensures r.UnaryExpr? && r.com == NoComments
    ensures IsSimpleExpression(r) <==> x.LiteralExpr? || x.Ident?
  {
    UnaryExpr(NoComments, pos, op, x)
  }

  /**
   * binary: an AssignExpr for the assignment operators, a BinaryExpr for every
   * other operator; LineBreak records that the left operand ends on an
   * earlier line than the right operand starts.
   */
  function Binary(x: Expr, pos: Position, op: string, y: Expr, sp: SpanOf): (r: Expr)
    ensures r.AssignExpr? <==> op in AssignOps
    ensures r.AssignExpr? || r.BinaryExpr?
    ensures r.lineBreak <==> sp(x).end.line < sp(y).start.line
  {
    var lineBreak := sp(x).end.line < sp(y).start.line;
    if op in AssignOps then AssignExpr(NoComments, x, pos, op, lineBreak, y)
    else BinaryExpr(NoComments, x, pos, op, lineBreak, y)
  }

  /** The operator node read back: left operand, operator position, operator, right operand. */
  function Operation(e: Expr): Option<(Expr, Position, string, Expr)>
  {
    match e
    case BinaryExpr(_, x, pos, op, _, y) => Some((x, pos, op, y))
    case AssignExpr(_, x, pos, op, _, y) => Some((x, pos, op, y))
    case _ => None
  }

  /** Reading the node back gives exactly the operands and operator it was built from. */
  lemma BinaryRoundTrip(x: Expr, pos: Position, op: string, y: Expr, sp: SpanOf)
    ensures Operation(Binary(x, pos, op, y, sp)) == Some((x, pos, op, y))
    ensures Binary(x, pos, op, y, sp).com == NoComments
  {
  }

  /** Case 108, `x is y`: when y is a unary `not`, one "is not" node over not's operand. */
  function IsOperation(x: Expr, pos: Position, tok: string, y: Expr, sp: SpanOf): (r: Expr)
    ensures r.com == NoComments
    ensures y.UnaryExpr? && y.op == "not" ==> r.BinaryExpr? && Operation(r) == Some((x, pos, "is not", y.x))
    ensures !(y.UnaryExpr? && y.op == "not") ==> Operation(r) == Some((x, pos, tok, y))
  {
    if y.UnaryExpr? && y.op == "not" then Binary(x, pos, "is not", y.x, sp)
    else Binary(x, pos, tok, y, sp)
  }

  /** Case 100, `x not in y`: one "not in" node, positioned at `not`. */
  function NotIn(x: Expr, notPos: Position, y: Expr, sp: SpanOf): (r: Expr)
    ensures r.BinaryExpr? && Operation(r) == Some((x, notPos, "not in", y))
    ensures r.lineBreak <==> sp(x).end.line < sp(y).start.line
  {
    Binary(x, notPos, "not in", y, sp)
  }

  /** `x is not z` is a single BinaryExpr "is not" whose right operand is z itself, not the `not`. */
  lemma IsNotFolds(x: Expr, pos: Position, notPos: Position, z: Expr, sp: SpanOf)
    ensures var r := IsOperation(x, pos, "is", Unary(notPos, "not", z), sp);
      r.BinaryExpr? && Operation(r) == Some((x, pos, "is not", z))
      && (r.lineBreak <==> sp(x).end.line < sp(z).start.line)
  {
  }

  /** `x is y` with any other right operand keeps y and the `is` operator. */
  lemma IsWithoutNot(x: Expr, pos: Position, y: Expr, sp: SpanOf)
    requires !(y.UnaryExpr? && y.op == "not")
    ensures var r := IsOperation(x, pos, "is", y, sp);
      r.BinaryExpr? && Operation(r) == Some((x, pos, "is", y))
  {
  }

  /** `x not in y` is a single BinaryExpr "not in" over x and y. */
  lemma NotInIsOneNode(x: Expr, notPos: Position, y: Expr, sp: SpanOf)
    ensures var r := NotIn(x, notPos, y, sp);
      r.BinaryExpr? && Operation(r) == Some((x, notPos, "not in", y))
  {
  }

  /** The elements an unbracketed tuple contributes when extended: itself, or its list. */
  function TupleElements(x: Expr): seq<Expr>
  {
    if x.TupleExpr? && x.noBrackets then x.list else [x]
  }

  /**
   * Cases 74 and 125, `x, y`: extend x when it is already an unbracketed tuple,
   * otherwise start the unbracketed, compact tuple [x, y].
   */
  function AppendTupleElement(x: Expr, y: Expr): (r: Expr)
    ensures r.TupleExpr? && r.noBrackets
    ensures r.list == TupleElements(x) + [y]
    ensures !(x.TupleExpr? && x.noBrackets) ==> r.forceCompact && !r.forceMultiLine && r.com == NoComments
    ensures x.TupleExpr? && x.noBrackets ==>
      r == TupleExpr(x.com, x.start, x.list + [y], x.end, true, x.forceCompact, x.forceMultiLine)
  {
    if x.TupleExpr? && x.noBrackets then
      TupleExpr(x.com, x.start, x.list + [y], x.end, true, x.forceCompact, x.forceMultiLine)
    else TupleExpr(NoComments, NoPosition, [x, y], NoPosition, true, true, false)
  }

  /** `e0, e1, ..., en` reduced left to right, one comma at a time. */
  function CommaList(first: Expr, rest: seq<Expr>): Expr
    decreases |rest|
  {
    if rest == [] then first
    else AppendTupleElement(CommaList(first, rest[..|rest| - 1]), rest[|rest| - 1])
  }

  /** The unbracketed tuple of a comma list holds exactly its operands, in order. */
  lemma {:induction false} CommaListFlattens(es: seq<Expr>)
    requires |es| >= 2
    requires forall i :: 0 <= i < |es| ==> !(es[i].TupleExpr? && es[i].noBrackets)
    ensures var t := CommaList(es[0], es[1..]);
      t.TupleExpr? && t.noBrackets && t.list == es
    decreases |es|
  {
    var rest := es[1..];
    if |es| == 2 {
      assert rest[..|rest| - 1] == [];
      assert es == [es[0], rest[0]];
    } else {
      var es' := es[..|es| - 1];
      assert es'[1..] == rest[..|rest| - 1];
      CommaListFlattens(es');
      assert es' + [es[|es| - 1]] == es;
    }
  }

  /**
   * Case 51, `( exprs_opt )`: exactly one element and no trailing comma is a
   * ParenExpr; anything else is a bracketed TupleExpr.
   */
  function ParenOrTuple(lparen: Position, exprs: seq<Expr>, comma: Position, rparen: Position, sp: SpanOf): (r: Expr)
    ensures r.ParenExpr? <==> |exprs| == 1 && comma.line == 0
    ensures r.ParenExpr? || (r.TupleExpr? && !r.noBrackets)
    ensures r.forceMultiLine == ForceMultiLine(lparen, exprs, rparen, sp)
    ensures r.TupleExpr? ==> r.forceCompact == CompactLayout(lparen, exprs, rparen, sp)
  {
    if |exprs| == 1 && comma.line == 0 then
      ParenExpr(NoComments, lparen, exprs[0], rparen, ForceMultiLine(lparen, exprs, rparen, sp))
    else
      TupleExpr(NoComments, lparen, exprs, rparen, false,
                CompactLayout(lparen, exprs, rparen, sp), ForceMultiLine(lparen, exprs, rparen, sp))
  }

  /** The elements inside the brackets of a paren or tuple node. */
  function Bracketed(e: Expr): seq<Expr>
  {
    match e
    case ParenExpr(_, _, x, _, _) => [x]
    case TupleExpr(_, _, list, _, _, _, _) => list
    case _ => []
  }

  /** Whichever node is chosen, it holds the parsed elements unchanged and in order. */
  lemma ParenOrTupleKeepsElements(lparen: Position, exprs: seq<Expr>, comma: Position, rparen: Position, sp: SpanOf)
    ensures Bracketed(ParenOrTuple(lparen, exprs, comma, rparen, sp)) == exprs
  {
  }

  /** `(1)` is a ParenExpr and `(1,)` a one-element TupleExpr; both hold the one literal. */
  lemma ParenVersusOneTuple(one: Expr, sp: SpanOf)
    requires one.LiteralExpr?
    ensures var p := ParenOrTuple(Position(1, 1, 0), [one], NoPosition, Position(1, 3, 2), sp);
      p.ParenExpr? && Bracketed(p) == [one]
    ensures var t := ParenOrTuple(Position(1, 1, 0), [one], Position(1, 3, 2), Position(1, 4, 3), sp);
      t.TupleExpr? && Bracketed(t) == [one]
  {
  }

  /** A load argument: the symbol exported by the loaded file (from) and the local name (to). */
  datatype LoadArg = LoadArg(from: Name, to: Name)

  /**
   * The position of the symbol inside its string literal: past the opening
   * quote, or the three quotes of a triple-quoted string.  Position.add is not
   * part of this model; for these newline-free quote strings it advances the
   * column and the byte offset by the quote count.
   */
  function SymbolPos(s: Expr): (p: Position)
    requires s.StringExpr?
    ensures p.line == s.start.line
    ensures p.lineRune == s.start.lineRune + (if s.tripleQuote then 3 else 1)
  {
    var quotes := if s.tripleQuote then 3 else 1;
    Position(s.start.line, s.start.lineRune + quotes, s.start.byte + quotes)
  }

  /** Case 62, `"a"`: the symbol is loaded under its own name. */
  function PlainLoadArg(s: Expr): (r: LoadArg)
    requires s.StringExpr?
    ensures r.from.name == s.value && r.to == r.from
  {
    var n := Name(NoComments, SymbolPos(s), s.value);
    LoadArg(n, n)
  }

  /** Case 63, `b = "c"`: the symbol c is bound locally as b (a copy of the identifier b). */
  function AliasedLoadArg(to: Expr, s: Expr): (r: LoadArg)
    requires to.Ident? && s.StringExpr?
    ensures r.from.name == s.value && r.to.name == to.name
    ensures r.to == Name(to.com, to.namePos, to.name)
  {
    LoadArg(Name(NoComments, SymbolPos(s), s.value), Name(to.com, to.namePos, to.name))
  }

  /**
   * Case 41 (with the argument list of cases 60 and 61): a LoadStmt whose From
   * and To lists pair the arguments index by index; compact when `load` and
   * the closing parenthesis are on one line.
   */
  method BuildLoad(loadPos: Position, modulePath: Expr, args: seq<LoadArg>, rparen: Position) returns (load: Expr)
    ensures load.LoadStmt? && load.modulePath == modulePath && load.loadPos == loadPos && load.rparen == rparen
    ensures |load.from| == |args| && |load.to| == |args|
    ensures forall i :: 0 <= i < |args| ==> load.from[i] == args[i].from && load.to[i] == args[i].to
    ensures load.forceCompact <==> loadPos.line == rparen.line
  {
    var from: seq<Name> := [];
    var to: seq<Name> := [];
    var i := 0;
    while i < |args|
      invariant 0 <= i <= |args|
      invariant |from| == i && |to| == i
      invariant forall k :: 0 <= k < i ==> from[k] == args[k].from && to[k] == args[k].to
    {
      from := from + [args[i].from];
      to := to + [args[i].to];
      i := i + 1;
    }
    load := LoadStmt(NoComments, loadPos, modulePath, from, to, rparen, loadPos.line == rparen.line);
  }

  /** `load(":x.bzl", "a", b = "c")`: the pairs are a from a, and b from c. */
  lemma LoadAliasing(a: Expr, b: Expr, c: Expr)
    requires a.StringExpr? && a.value == "a"
    requires b.Ident? && b.name == "b"
    requires c.StringExpr? && c.value == "c"
    ensures PlainLoadArg(a).from.name == "a" && PlainLoadArg(a).to.name == "a"
    ensures AliasedLoadArg(b, c).from.name == "c" && AliasedLoadArg(b, c).to.name == "b"
  {
  }
}
