/**
 * The syntax tree that the parser actions build and the lint checks read.
 *
 * The Go nodes are referenced structs whose fields are changed in place by the parser
 * actions and by fixes; here every node is a value, and an action returns the
 * updated node.  Every constructor carries its attached comments in the field
 * `com`, as every Go node embeds a `Comments` record.
 */
module Syntax {
  import opened Wrappers
  import opened Seqs

  /** A source position: line (1-based), rune column within the line, byte offset. */
  datatype Position = Position(line: int, lineRune: int, byte: int)

  /** The zero Position, which Go uses as "no position" (e.g. no trailing comma). */
  const NoPosition := Position(0, 0, 0)

  datatype Span = Span(start: Position, end: Position)

  /** A source comment: where it starts and its text, including the leading '#'. */
  datatype Comment = Comment(start: Position, token: string)

  /** Comments attached to a node: lines above it, at the end of its line, and after it. */
  datatype Comments = Comments(before: seq<Comment>, suffix: seq<Comment>, after: seq<Comment>)

  const NoComments := Comments([], [], [])

  /** An identifier as it appears in the From/To lists of a load statement. */
  datatype Name = Name(com: Comments, namePos: Position, name: string)

  datatype Expr =
    | CommentBlock(com: Comments, start: Position)
    | Ident(com: Comments, namePos: Position, name: string)
    | LiteralExpr(com: Comments, start: Position, token: string)
    | StringExpr(com: Comments, start: Position, value: string, tripleQuote: bool, end: Position, token: string)
    | UnaryExpr(com: Comments, opStart: Position, op: string, x: Expr)
    | BinaryExpr(com: Comments, x: Expr, opStart: Position, op: string, lineBreak: bool, y: Expr)
    | AssignExpr(com: Comments, lhs: Expr, opPos: Position, op: string, lineBreak: bool, rhs: Expr)
    | ParenExpr(com: Comments, start: Position, x: Expr, end: Position, forceMultiLine: bool)
    | TupleExpr(com: Comments, start: Position, list: seq<Expr>, end: Position,
                noBrackets: bool, forceCompact: bool, forceMultiLine: bool)
    | ListExpr(com: Comments, start: Position, list: seq<Expr>, end: Position, forceMultiLine: bool)
    | SetExpr(com: Comments, start: Position, list: seq<Expr>, end: Position, forceMultiLine: bool)
    | DictExpr(com: Comments, start: Position, list: seq<Expr>, end: Position, forceMultiLine: bool)
    | KeyValueExpr(com: Comments, key: Expr, colon: Position, val: Expr)
    | CallExpr(com: Comments, x: Expr, listStart: Position, list: seq<Expr>, end: Position,
               forceCompact: bool, forceMultiLine: bool)
    | DotExpr(com: Comments, x: Expr, dot: Position, namePos: Position, name: string)
    | Comprehension(com: Comments, curly: bool, lbrack: Position, compBody: Expr, clauses: seq<Expr>,
                    end: Position, forceMultiLine: bool)
    | ForClause(com: Comments, forPos: Position, vars: Expr, inPos: Position, x: Expr)
    | IfClause(com: Comments, ifPos: Position, cond: Expr)
    | DefStmt(com: Comments, startPos: Position, name: string, params: seq<Expr>, body: seq<Expr>,
              colonPos: Position, forceCompact: bool, forceMultiLine: bool)
    | ForStmt(com: Comments, forPos: Position, vars: Expr, x: Expr, body: seq<Expr>)
    | IfStmt(com: Comments, ifPos: Position, cond: Expr, trueBody: seq<Expr>,
             elsePos: Position, falseBody: seq<Expr>)
    | ReturnStmt(com: Comments, returnPos: Position, result: Option<Expr>)
    | BranchStmt(com: Comments, token: string, tokenPos: Position)
    | LoadStmt(com: Comments, loadPos: Position, modulePath: Expr, from: seq<Name>, to: seq<Name>,
               rparen: Position, forceCompact: bool)

  /** The span of a node; Span() itself is not part of this model, so it is a parameter. */
  type SpanOf = Expr -> Span

  /** The Ident node for a load-statement name, so that SpanOf applies to it. */
  function NameExpr(n: Name): Expr
  {
    Ident(n.com, n.namePos, n.name)
  }

  /** The same node carrying the comments c (Comment() returns a reference the parser writes through). */
  function WithComments(e: Expr, c: Comments): (r: Expr)
    ensures r.com == c
    ensures r.CommentBlock? <==> e.CommentBlock?
    ensures r.IfStmt? <==> e.IfStmt?
  {
    e.(com := c)
  }

  /** Replacing the comments touches nothing else: putting the old ones back restores the node. */
  lemma WithCommentsRestores(e: Expr, c: Comments)
    ensures WithComments(WithComments(e, c), e.com) == e
  {
  }

  /** Putting a node's own comments on it changes nothing. */
  lemma WithOwnComments(e: Expr)
    ensures WithComments(e, e.com) == e
  {
  }

  /** Before and After comments of a node, in source order (suffix comments stay on their line). */
  function OwnComments(e: Expr): seq<Comment>
  {
    e.com.before + e.com.after
  }

  /** The Before/After comments of a statement list, statement by statement. */
  function AllComments(stmts: seq<Expr>): seq<Comment>
  {
    if stmts == [] then [] else AllComments(stmts[..|stmts| - 1]) + OwnComments(stmts[|stmts| - 1])
  }

  lemma {:induction false} AllCommentsAppend(a: seq<Expr>, b: seq<Expr>)
    ensures AllComments(a + b) == AllComments(a) + AllComments(b)
    decreases |b|
  {
    if b == [] {
      assert a + b == a;
    } else {
      var b', x := b[..|b| - 1], b[|b| - 1];
      SnocSlice(a, b);
      AllCommentsAppend(a, b');
      assert AllComments(a + b) == AllComments(a + b') + OwnComments(x);
      assert AllComments(b) == AllComments(b') + OwnComments(x);
      Assoc(AllComments(a), AllComments(b'), OwnComments(x));
    }
  }

  lemma AllCommentsSingle(e: Expr)
    ensures AllComments([e]) == OwnComments(e)
  {
    SingleSlice(e);
  }

  /** The comments of a list, cut around the statement at index i. */
  lemma AllCommentsAt(s: seq<Expr>, i: nat)
    requires i < |s|
    ensures AllComments(s) == AllComments(s[..i]) + OwnComments(s[i]) + AllComments(s[i + 1..])
  {
    var a, x, b := s[..i], s[i], s[i + 1..];
    CutAt(s, i);
    AllCommentsAppend(a + [x], b);
    AllCommentsAppend(a, [x]);
    AllCommentsSingle(x);
  }
}
