/**
 * Statement lists as the parser accumulates them (build/parse.y.go, the
 * `suite`, `comments`, `stmts` and `stmt` rules): each reduction carries the
 * statements so far and the statement that later comment lines attach to.
 */
module Statements {
  import opened Wrappers
  import opened Syntax
  import opened Blocks

  /**
   * The (exprs, lastStmt) pair of a reduction.  lastStmt is the index in exprs
   * of the statement later comments attach to, or None once a blank line
   * has severed the list from what follows.
   */
  datatype StmtList = StmtList(exprs: seq<Expr>, lastStmt: Option<nat>)

  /** The reference lastStmt, when set, designates the last statement of the list. */
  predicate Valid(s: StmtList)
  {
    s.lastStmt.None? || s.lastStmt.value == |s.exprs| - 1
  }

  /** Cases 6 and 9: the empty list, with nothing to attach to. */
  const NoStmts := StmtList([], None)

  /** lastStmt after `n` statements have been put in front of the list it points into. */
  function Shift(last: Option<nat>, n: nat): Option<nat>
  {
    match last
    case None => None
    case Some(k) => Some(k + n)
  }

  /** A comment line of the source becomes a Comment with its position and text. */
  function LineComment(pos: Position, tok: string): Comment
  {
    Comment(pos, tok)
  }

  /**
   * Cases 7 and 12, a comment line: with nothing to attach to, it opens a new
   * CommentBlock at its position; otherwise it is appended to the After
   * comments of the last statement.
   */
  function AddComment(s: StmtList, pos: Position, tok: string): (r: StmtList)
    requires Valid(s)
    ensures Valid(r) && r.lastStmt.Some?
    ensures s.lastStmt.None? ==>
      r.exprs == s.exprs + [CommentBlock(Comments([], [], [LineComment(pos, tok)]), pos)]
    ensures s.lastStmt.Some? ==>
      var k := |s.exprs| - 1;
      && |r.exprs| == |s.exprs| && r.exprs[..k] == s.exprs[..k]
      && r.exprs[k].com == s.exprs[k].com.(after := s.exprs[k].com.after + [LineComment(pos, tok)])
      && WithComments(r.exprs[k], s.exprs[k].com) == s.exprs[k]
  {
    var c := LineComment(pos, tok);
    match s.lastStmt
    case None => StmtList(s.exprs + [CommentBlock(Comments([], [], [c]), pos)], Some(|s.exprs|))
    case Some(k) =>
      var x := s.exprs[k];
      StmtList(s.exprs[..k] + [WithComments(x, x.com.(after := x.com.after + [c]))], Some(k))
  }

  /** The comment line is added after every comment line already in the list, and nothing else changes. */
  lemma AddCommentAppends(s: StmtList, pos: Position, tok: string)
    requires Valid(s)
    ensures AllComments(AddComment(s, pos, tok).exprs) == AllComments(s.exprs) + [LineComment(pos, tok)]
  {
    var r := AddComment(s, pos, tok);
    var c := LineComment(pos, tok);
    if s.lastStmt.None? {
      var cb := CommentBlock(Comments([], [], [c]), pos);
      calc {
        AllComments(r.exprs);
        AllComments(s.exprs + [cb]);
        { AllCommentsAppend(s.exprs, [cb]); AllCommentsSingle(cb); }
        AllComments(s.exprs) + [c];
      }
    } else {
      var k := |s.exprs| - 1;
      var x := s.exprs[k];
      var x' := r.exprs[k];
      assert r.exprs == s.exprs[..k] + [x'];
      calc {
        AllComments(r.exprs);
        { AllCommentsAppend(s.exprs[..k], [x']); AllCommentsSingle(x'); }
        AllComments(s.exprs[..k]) + OwnComments(x');
        { assert OwnComments(x') == OwnComments(x) + [c]; }
        AllComments(s.exprs[..k]) + OwnComments(x) + [c];
        { AllCommentsAt(s.exprs, k); assert s.exprs[k + 1..] == []; }
        AllComments(s.exprs) + [c];
      }
    }
  }

  /** Cases 8 and 11, a blank line: the statements stay, the attachment point is dropped. */
  function BlankLine(s: StmtList): (r: StmtList)
    ensures Valid(r) && r.lastStmt.None?
    ensures r.exprs == s.exprs
  {
    StmtList(s.exprs, None)
  }

  /** Case 13, a simple statement line: its expressions, the last one taking later comments. */
  function SimpleStmt(exprs: seq<Expr>): (r: StmtList)
    requires |exprs| > 0
    ensures Valid(r) && r.lastStmt.Some? && r.exprs == exprs
  {
    StmtList(exprs, Some(|exprs| - 1))
  }

  /** The list ends in a CommentBlock that comments are still being added to. */
  predicate EndsInOpenBlock(s: StmtList)
  {
    s.lastStmt.Some? && 0 < |s.exprs| && s.exprs[|s.exprs| - 1].CommentBlock?
  }

  /** The comments the next statement takes as its Before comments. */
  function Pending(s: StmtList, t: StmtList): seq<Comment>
    requires Valid(s) && |t.exprs| > 0
  {
    if s.lastStmt.Some? then s.exprs[|s.exprs| - 1].com.after else t.exprs[0].com.before
  }

  /**
   * Case 10, `stmts stmt`: a CommentBlock still open before the statement is
   * dissolved into the statement's Before comments; otherwise the After
   * comments of the last statement move to the new statement's Before.
   */
  function AddStmt(s: StmtList, t: StmtList): (r: StmtList)
    requires Valid(s) && Valid(t) && |t.exprs| > 0
    ensures Valid(r)
    ensures var m := |r.exprs| - |t.exprs|;
      && m == |s.exprs| - (if EndsInOpenBlock(s) then 1 else 0)
      && r.exprs[m].com == t.exprs[0].com.(before := Pending(s, t))
      && WithComments(r.exprs[m], t.exprs[0].com) == t.exprs[0]
      && r.exprs[m + 1..] == t.exprs[1..]
      && r.lastStmt == Shift(t.lastStmt, m)
    ensures s.lastStmt.None? ==> r.exprs == s.exprs + t.exprs
    ensures EndsInOpenBlock(s) ==> r.exprs[..|s.exprs| - 1] == s.exprs[..|s.exprs| - 1]
    ensures s.lastStmt.Some? && !EndsInOpenBlock(s) ==>
      var k := |s.exprs| - 1;
      && r.exprs[..k] == s.exprs[..k]
      && r.exprs[k].com == s.exprs[k].com.(after := [])
      && WithComments(r.exprs[k], s.exprs[k].com) == s.exprs[k]
  {
    var n := |s.exprs|;
    var t0 := t.exprs[0];
    match s.lastStmt
    case None =>
      WithOwnComments(t0);
      StmtList(s.exprs + t.exprs, Shift(t.lastStmt, n))
    case Some(k) =>
      var x := s.exprs[k];
      var t0' := WithComments(t0, t0.com.(before := x.com.after));
      WithCommentsRestores(t0, t0.com.(before := x.com.after));
      if x.CommentBlock? then
        var r := StmtList(s.exprs[..n - 1] + [t0'] + t.exprs[1..], Shift(t.lastStmt, n - 1));
        assert r.exprs[n - 1] == t0';
        r
      else
        var x' := WithComments(x, x.com.(after := []));
        WithCommentsRestores(x, x.com.(after := []));
        var r := StmtList(s.exprs[..k] + [x'] + [t0'] + t.exprs[1..], Shift(t.lastStmt, n));
        assert r.exprs[k] == x' && r.exprs[k + 1] == t0';
        r
  }

  /** The comments of a list that ends with x. */
  lemma AllCommentsLast(a: seq<Expr>, x: Expr)
    ensures AllComments(a + [x]) == AllComments(a) + OwnComments(x)
  {
    AllCommentsAppend(a, [x]);
    AllCommentsSingle(x);
  }

  /** The comments of a list that starts with x. */
  lemma AllCommentsFirst(x: Expr, b: seq<Expr>)
    ensures AllComments([x] + b) == OwnComments(x) + AllComments(b)
  {
    AllCommentsAppend([x], b);
    AllCommentsSingle(x);
  }

  /** Putting the list p + [x'] in front of [t0'] + rest, when the two new nodes carry the comments of x and t0. */
  lemma JoinConserves(p: seq<Expr>, x: Expr, t0: Expr, rest: seq<Expr>, q: seq<Expr>, t0': Expr)
    requires AllComments(q) + OwnComments(t0') == AllComments(p) + OwnComments(x) + OwnComments(t0)
    ensures AllComments(q + [t0'] + rest) == AllComments(p + [x]) + AllComments([t0] + rest)
  {
    AllCommentsAppend(q + [t0'], rest);
    AllCommentsLast(q, t0');
    AllCommentsLast(p, x);
    AllCommentsFirst(t0, rest);
  }

  /**
   * No comment line is lost, duplicated or reordered by AddStmt, as long as
   * the new statement had no Before comments and an open CommentBlock none either.
   */
  lemma AddStmtConserves(s: StmtList, t: StmtList)
    requires Valid(s) && Valid(t) && |t.exprs| > 0
    requires t.exprs[0].com.before == []
    requires EndsInOpenBlock(s) ==> s.exprs[|s.exprs| - 1].com.before == []
    ensures AllComments(AddStmt(s, t).exprs) == AllComments(s.exprs) + AllComments(t.exprs)
  {
    if s.lastStmt.None? {
      AllCommentsAppend(s.exprs, t.exprs);
    } else {
      AddStmtConservesAttached(s, t);
    }
  }

  /** AddStmtConserves when there is a last statement whose comments move. */
  lemma AddStmtConservesAttached(s: StmtList, t: StmtList)
    requires Valid(s) && Valid(t) && |t.exprs| > 0 && s.lastStmt.Some?
    requires t.exprs[0].com.before == []
    requires EndsInOpenBlock(s) ==> s.exprs[|s.exprs| - 1].com.before == []
    ensures AllComments(AddStmt(s, t).exprs) == AllComments(s.exprs) + AllComments(t.exprs)
  {
    var r := AddStmt(s, t);
    var n := |s.exprs|;
    var t0, rest := t.exprs[0], t.exprs[1..];
    assert t.exprs == [t0] + rest;
    var p, x := s.exprs[..n - 1], s.exprs[n - 1];
    assert s.exprs == p + [x];
    var t0' := WithComments(t0, t0.com.(before := x.com.after));
    if x.CommentBlock? {
      assert r.exprs == p + [t0'] + rest;
      JoinConserves(p, x, t0, rest, p, t0');
    } else {
      var x' := WithComments(x, x.com.(after := []));
      assert r.exprs == (p + [x']) + [t0'] + rest;
      AllCommentsLast(p, x');
      JoinConserves(p, x, t0, rest, p + [x'], t0');
    }
  }

  /**
   * Case 14, a block statement: the block followed by the comment blocks its
   * end hoisted out.  lastStmt is the block, or the last hoisted block, or
   * None when the suite the block ended with was severed by a blank line.
   */
  method BlockStmt(block: Block, sp: SpanOf) returns (r: StmtList)
    ensures Valid(r) && |r.exprs| > 0
    ensures var (b, cut) := ExtractTrailing(block.stmt, sp);
      && r.exprs == [b] + cut
      && r.lastStmt == (if cut == [] then Some(0) else if block.lastStmt.None? then None else Some(|cut|))
  {
    var b, cbs := ExtractTrailingComments(block.stmt, sp);
    r := StmtList([b], Some(0));
    if |cbs| > 0 {
      r := StmtList([b] + cbs, Some(|cbs|));
      if block.lastStmt.None? {
        r := r.(lastStmt := None);
      }
    }
  }

  /** The line of the last comment line of a comments prefix of a suite. */
  function LastCommentLine(comments: seq<Expr>): int
    requires comments != [] && |comments[|comments| - 1].com.after| > 0
  {
    var cb := comments[|comments| - 1];
    cb.com.after[|cb.com.after| - 1].start.line
  }

  /** The last comment before an indented suite sits on the line just above its first statement. */
  predicate Attaches(comments: seq<Expr>, stmts: StmtList, sp: SpanOf)
    requires comments != [] ==> |comments[|comments| - 1].com.after| > 0 && |stmts.exprs| > 0
  {
    comments != [] && sp(stmts.exprs[0]).start.line - LastCommentLine(comments) == 1
  }

  /**
   * Case 2, `'\n' comments INDENT stmts UNINDENT`: the comment blocks between
   * the colon and the suite come first; the last of them becomes the first
   * statement's Before comments when nothing separates them.
   */
  function Suite(comments: seq<Expr>, stmts: StmtList, sp: SpanOf): (r: StmtList)
    requires comments != [] ==>
      && comments[|comments| - 1].CommentBlock? && |comments[|comments| - 1].com.after| > 0
      && |stmts.exprs| > 0
    ensures Valid(stmts) ==> Valid(r)
    ensures |r.exprs| == |comments| + |stmts.exprs| - (if Attaches(comments, stmts, sp) then 1 else 0)
    ensures !Attaches(comments, stmts, sp) ==>
      r.exprs == comments + stmts.exprs && r.lastStmt == Shift(stmts.lastStmt, |comments|)
    ensures Attaches(comments, stmts, sp) ==>
      var m := |comments| - 1;
      && r.exprs[..m] == comments[..m]
      && r.exprs[m].com == stmts.exprs[0].com.(before := comments[m].com.after)
      && WithComments(r.exprs[m], stmts.exprs[0].com) == stmts.exprs[0]
      && r.exprs[m + 1..] == stmts.exprs[1..]
      && r.lastStmt == Shift(stmts.lastStmt, m)
  {
    if comments == [] then stmts
    else
      var m := |comments| - 1;
      var stmt := stmts.exprs[0];
      if sp(stmt).start.line - LastCommentLine(comments) == 1 then
        StmtList(comments[..m] + [WithComments(stmt, stmt.com.(before := comments[m].com.after))] + stmts.exprs[1..],
                 Shift(stmts.lastStmt, m))
      else
        StmtList(comments + stmts.exprs, Shift(stmts.lastStmt, |comments|))
  }

  /** Suite moves comment lines between nodes but loses, duplicates and reorders none. */
  lemma SuiteConserves(comments: seq<Expr>, stmts: StmtList, sp: SpanOf)
    requires comments != [] ==>
      && comments[|comments| - 1].CommentBlock? && |comments[|comments| - 1].com.after| > 0
      && comments[|comments| - 1].com.before == []
      && |stmts.exprs| > 0 && stmts.exprs[0].com.before == []
    ensures AllComments(Suite(comments, stmts, sp).exprs) == AllComments(comments) + AllComments(stmts.exprs)
  {
    var r := Suite(comments, stmts, sp);
    if !Attaches(comments, stmts, sp) {
      AllCommentsAppend(comments, stmts.exprs);
    } else {
      var m := |comments| - 1;
      AllCommentsAt(comments, m);
      assert comments[m + 1..] == [];
      AllCommentsAt(stmts.exprs, 0);
      assert stmts.exprs[..0] == [];
      AllCommentsAt(r.exprs, m);
    }
  }

  /**
   * `foo()` / `# bar` / `baz()`: the comment ends up as the Before comment of
   * baz() and foo() keeps no After comment.
   */
  lemma CommentReattachment(foo: Expr, baz: Expr, pos: Position)
    requires foo.com == NoComments && baz.com == NoComments
    requires !foo.CommentBlock? && !baz.CommentBlock?
    ensures var s := AddStmt(AddComment(AddStmt(NoStmts, SimpleStmt([foo])), pos, "# bar"), SimpleStmt([baz]));
      && |s.exprs| == 2 && s.exprs[0] == foo
      && s.exprs[1].com.before == [LineComment(pos, "# bar")]
      && WithComments(s.exprs[1], NoComments) == baz
  {
  }

  /**
   * `foo()` / blank / `# bar` / `baz()`: the blank line opens a CommentBlock
   * for the comment, which the next statement then dissolves into its own
   * Before comments; the list holds just the two statements.
   */
  lemma BlankLineThenComment(foo: Expr, baz: Expr, pos: Position)
    requires foo.com == NoComments && baz.com == NoComments
    requires !foo.CommentBlock? && !baz.CommentBlock?
    ensures var s := AddStmt(AddComment(BlankLine(AddStmt(NoStmts, SimpleStmt([foo]))), pos, "# bar"), SimpleStmt([baz]));
      && |s.exprs| == 2 && s.exprs[0] == foo
      && s.exprs[1].com.before == [LineComment(pos, "# bar")]
  {
  }

  /**
   * `foo()` / blank / `# bar` / blank / `baz()`: with a blank line on each
   * side the comment stays a standalone CommentBlock between the statements.
   */
  lemma BlankLineSevering(foo: Expr, baz: Expr, pos: Position)
    requires foo.com == NoComments && baz.com == NoComments
    requires !foo.CommentBlock? && !baz.CommentBlock?
    ensures var s := AddStmt(BlankLine(AddComment(BlankLine(AddStmt(NoStmts, SimpleStmt([foo]))), pos, "# bar")),
                             SimpleStmt([baz]));
      && s.exprs == [foo, CommentBlock(Comments([], [], [LineComment(pos, "# bar")]), pos), baz]
  {
  }
}
