/**
 * Block statements as the parser assembles them (build/parse.y.go): the last
 * body of a def/for/if, if-elif-else chains as nested IfStmt nodes, and the
 * hoisting of dedented trailing comments out of a block that has just ended.
 */
module Blocks {
  import opened Wrappers
  import opened Syntax
  import Layout

  /**
   * getLastBody: the only body of a def or for, the last body of an if chain
   * (following a False branch that is exactly one IfStmt); None for other nodes.
   */
  function LastBody(s: Expr): (r: Option<seq<Expr>>)
    ensures r.Some? <==> s.DefStmt? || s.ForStmt? || s.IfStmt?
    decreases s
  {
    match s
    case DefStmt(_, _, _, _, body, _, _, _) => Some(body)
    case ForStmt(_, _, _, _, body) => Some(body)
    case IfStmt(_, _, _, t, _, f) =>
      if |f| == 0 then Some(t)
      else if |f| == 1 && f[0].IfStmt? then LastBody(f[0])
      else Some(f)
    case _ => None
  }

  /** Writing through the reference getLastBody returns: the same node with that body replaced. */
  function SetLastBody(s: Expr, b: seq<Expr>): (r: Expr)
    requires LastBody(s).Some?
    ensures LastBody(r).Some? && r.com == s.com
    ensures (r.DefStmt? <==> s.DefStmt?) && (r.ForStmt? <==> s.ForStmt?) && (r.IfStmt? <==> s.IfStmt?)
    ensures s.IfStmt? ==> r.ifPos == s.ifPos && r.cond == s.cond
    decreases s
  {
    match s
    case DefStmt(c, p, n, ps, _, col, fc, fm) => DefStmt(c, p, n, ps, b, col, fc, fm)
    case ForStmt(c, p, v, x, _) => ForStmt(c, p, v, x, b)
    case IfStmt(c, p, cond, t, e, f) =>
      if |f| == 0 then IfStmt(c, p, cond, b, e, f)
      else if |f| == 1 && f[0].IfStmt? then IfStmt(c, p, cond, t, e, [SetLastBody(f[0], b)])
      else IfStmt(c, p, cond, t, e, b)
  }

  /** Writing back the body that was read changes nothing. */
  lemma {:induction false} SetLastBodyOfLastBody(s: Expr)
    requires LastBody(s).Some?
    ensures SetLastBody(s, LastBody(s).value) == s
    decreases s
  {
    if s.IfStmt? && |s.falseBody| == 1 && s.falseBody[0].IfStmt? {
      SetLastBodyOfLastBody(s.falseBody[0]);
    }
  }

  /**
   * Reading after writing returns the body written, as long as the new body
   * does not itself look like the tail of an elif chain (empty, or one IfStmt).
   */
  lemma {:induction false} LastBodyOfSetLastBody(s: Expr, b: seq<Expr>)
    requires LastBody(s).Some?
    requires b != [] && !(|b| == 1 && b[0].IfStmt?)
    ensures LastBody(SetLastBody(s, b)) == Some(b)
    decreases s
  {
    if s.IfStmt? && |s.falseBody| == 1 && s.falseBody[0].IfStmt? {
      LastBodyOfSetLastBody(s.falseBody[0], b);
    }
  }

  /** A False branch that continues the chain: exactly one IfStmt. */
  predicate ChainsOn(f: seq<Expr>)
  {
    |f| == 1 && f[0].IfStmt?
  }

  /** One if or elif of a chain, with the position of the elif/else that follows it. */
  datatype IfLink = IfLink(com: Comments, ifPos: Position, cond: Expr, trueBody: seq<Expr>, elsePos: Position)

  /** The links of a chain, outermost first. */
  function Links(s: Expr): (r: seq<IfLink>)
    requires s.IfStmt?
    ensures |r| >= 1 && r[0] == IfLink(s.com, s.ifPos, s.cond, s.trueBody, s.elsePos)
    decreases s
  {
    [IfLink(s.com, s.ifPos, s.cond, s.trueBody, s.elsePos)]
      + (if ChainsOn(s.falseBody) then Links(s.falseBody[0]) else [])
  }

  /** The else body of a chain: the False branch of its innermost link. */
  function FinalElse(s: Expr): (r: seq<Expr>)
    requires s.IfStmt?
    ensures !ChainsOn(r)
    decreases s
  {
    if ChainsOn(s.falseBody) then FinalElse(s.falseBody[0]) else s.falseBody
  }

  /** The nested IfStmt built from a list of links and an else body. */
  function Rebuild(links: seq<IfLink>, final: seq<Expr>): (r: Expr)
    requires |links| >= 1
    ensures r.IfStmt?
    decreases |links|
  {
    var l := links[0];
    IfStmt(l.com, l.ifPos, l.cond, l.trueBody, l.elsePos,
           if |links| == 1 then final else [Rebuild(links[1..], final)])
  }

  /** A chain is determined by its links and its else body. */
  lemma {:induction false} RebuildOfChain(s: Expr)
    requires s.IfStmt?
    ensures Rebuild(Links(s), FinalElse(s)) == s
    decreases s
  {
    if ChainsOn(s.falseBody) {
      var inner := s.falseBody[0];
      RebuildOfChain(inner);
      assert Links(s)[1..] == Links(inner);
      assert s.falseBody == [inner];
    }
  }

  /** Conversely, rebuilding and reading back gives the same links and else body. */
  lemma {:induction false} ChainOfRebuild(links: seq<IfLink>, final: seq<Expr>)
    requires |links| >= 1 && !ChainsOn(final)
    ensures Links(Rebuild(links, final)) == links
    ensures FinalElse(Rebuild(links, final)) == final
    decreases |links|
  {
    if |links| > 1 {
      ChainOfRebuild(links[1..], final);
      assert links == [links[0]] + links[1..];
    }
  }

  /** The last body of a chain is its else body, or the True body of its last link when there is none. */
  lemma {:induction false} LastBodyOfChain(s: Expr)
    requires s.IfStmt?
    ensures var l := Links(s);
      LastBody(s) == Some(if FinalElse(s) == [] then l[|l| - 1].trueBody else FinalElse(s))
    decreases s
  {
    if ChainsOn(s.falseBody) {
      LastBodyOfChain(s.falseBody[0]);
    }
  }

  /**
   * The walk of cases 19 and 21 down the chain (`for len(inner.False) == 1`),
   * then the write to the innermost link: its ElsePos and its False branch.
   * The walk type-asserts every single False element to be an IfStmt, so the
   * innermost False branch must not hold exactly one statement.
   */
  function SetInnerElse(c: Expr, elsePos: Position, f: seq<Expr>): (r: Expr)
    requires c.IfStmt? && |FinalElse(c)| != 1
    ensures r.IfStmt?
    decreases c
  {
    if ChainsOn(c.falseBody) then
      IfStmt(c.com, c.ifPos, c.cond, c.trueBody, c.elsePos, [SetInnerElse(c.falseBody[0], elsePos, f)])
    else
      IfStmt(c.com, c.ifPos, c.cond, c.trueBody, elsePos, f)
  }

  /** The chain keeps its links, the innermost one records the new ElsePos, and the links of f follow. */
  lemma {:induction false} SetInnerElseLinks(c: Expr, elsePos: Position, f: seq<Expr>)
    requires c.IfStmt? && |FinalElse(c)| != 1
    ensures var l := Links(c);
      Links(SetInnerElse(c, elsePos, f)) == l[..|l| - 1] + [l[|l| - 1].(elsePos := elsePos)]
                                            + (if ChainsOn(f) then Links(f[0]) else [])
    decreases c
  {
    if ChainsOn(c.falseBody) {
      var inner := c.falseBody[0];
      SetInnerElseLinks(inner, elsePos, f);
      var x := IfLink(c.com, c.ifPos, c.cond, c.trueBody, c.elsePos);
      var li := Links(inner);
      var y := li[|li| - 1].(elsePos := elsePos);
      var tail := if ChainsOn(f) then Links(f[0]) else [];
      assert Links(SetInnerElse(c, elsePos, f)) == [x] + (li[..|li| - 1] + [y] + tail);
      assert Links(c) == [x] + li;
      ConsLast(x, li);
      ConsRegroup(x, li[..|li| - 1], y, tail);
    }
  }

  /** The else body of the new chain is f, or the else body of the chain f continues with. */
  lemma {:induction false} SetInnerElseFinal(c: Expr, elsePos: Position, f: seq<Expr>)
    requires c.IfStmt? && |FinalElse(c)| != 1
    ensures FinalElse(SetInnerElse(c, elsePos, f)) == if ChainsOn(f) then FinalElse(f[0]) else f
    decreases c
  {
    if ChainsOn(c.falseBody) {
      SetInnerElseFinal(c.falseBody[0], elsePos, f);
    }
  }

  lemma ConsRegroup<T>(x: T, a: seq<T>, y: T, t: seq<T>)
    ensures [x] + (a + [y] + t) == ([x] + a) + [y] + t
  {
  }

  /** Dropping or reading the last element of a list past its head. */
  lemma ConsLast<T>(x: T, xs: seq<T>)
    requires |xs| >= 1
    ensures var l := [x] + xs;
      l[..|l| - 1] == [x] + xs[..|xs| - 1] && l[|l| - 1] == xs[|xs| - 1]
  {
  }

  /**
   * The value of a block-statement reduction: the node, and the lastStmt of
   * the suite parsed last (None when that suite ended severed by a blank
   * line).  Case 17 passes an if chain on as a statement unchanged.
   */
  datatype Block = Block(stmt: Expr, lastStmt: Option<nat>)

  /** Case 15, `def name(params): suite`: the suite is the only body and its lastStmt is carried. */
  function NewDef(defPos: Position, name: string, lparen: Position, params: seq<Expr>, rparen: Position,
                  colonPos: Position, body: seq<Expr>, bodyLast: Option<nat>, sp: SpanOf): (r: Block)
    ensures r.stmt.DefStmt? && r.stmt.name == name && r.stmt.params == params
    ensures LastBody(r.stmt) == Some(body) && r.lastStmt == bodyLast
    ensures r.stmt.forceCompact == Layout.CompactLayout(lparen, params, rparen, sp)
    ensures r.stmt.forceMultiLine == Layout.ForceMultiLine(lparen, params, rparen, sp)
    ensures !(r.stmt.forceCompact && r.stmt.forceMultiLine)
  {
    Layout.CompactExcludesMultiLine(lparen, params, rparen, sp);
    Block(DefStmt(NoComments, defPos, name, params, body, colonPos,
                  Layout.CompactLayout(lparen, params, rparen, sp), Layout.ForceMultiLine(lparen, params, rparen, sp)),
          bodyLast)
  }

  /** Case 16, `for vars in x: suite`: the suite is the only body and its lastStmt is carried. */
  function NewFor(forPos: Position, vars: Expr, x: Expr, body: seq<Expr>, bodyLast: Option<nat>): (r: Block)
    ensures r.stmt.ForStmt? && r.stmt.vars == vars && r.stmt.x == x
    ensures LastBody(r.stmt) == Some(body) && r.lastStmt == bodyLast
  {
    Block(ForStmt(NoComments, forPos, vars, x, body), bodyLast)
  }

  /** Case 18, `if cond: suite`: a one-link chain with no else, whose last body is the suite. */
  function NewIf(ifPos: Position, cond: Expr, body: seq<Expr>, bodyLast: Option<nat>): (r: Block)
    ensures r.stmt.IfStmt?
    ensures Links(r.stmt) == [IfLink(NoComments, ifPos, cond, body, NoPosition)]
    ensures FinalElse(r.stmt) == []
    ensures LastBody(r.stmt) == Some(body) && r.lastStmt == bodyLast
  {
    Block(IfStmt(NoComments, ifPos, cond, body, NoPosition, []), bodyLast)
  }

  /**
   * Case 19, `elif cond: suite`: the chain gains one link at its innermost
   * end and stays open; the elif suite becomes the last body, and its
   * lastStmt replaces the chain's.
   */
  function AttachElif(c: Block, pos: Position, cond: Expr, body: seq<Expr>, bodyLast: Option<nat>): (r: Block)
    requires c.stmt.IfStmt? && |FinalElse(c.stmt)| != 1
    ensures r.stmt.IfStmt?
    ensures var l := Links(c.stmt);
      Links(r.stmt) == l[..|l| - 1] + [l[|l| - 1].(elsePos := pos)] + [IfLink(NoComments, pos, cond, body, NoPosition)]
    ensures FinalElse(r.stmt) == []
    ensures LastBody(r.stmt) == Some(body) && r.lastStmt == bodyLast
  {
    var elif := NewIf(pos, cond, body, bodyLast).stmt;
    SetInnerElseLinks(c.stmt, pos, [elif]);
    SetInnerElseFinal(c.stmt, pos, [elif]);
    LastBodyOfChain(SetInnerElse(c.stmt, pos, [elif]));
    Block(SetInnerElse(c.stmt, pos, [elif]), bodyLast)
  }

  /**
   * Case 21, `else: suite`: the innermost link gets the else body, and the
   * else suite's lastStmt replaces the chain's.  An else body that is exactly
   * one if statement continues the chain, and getLastBody then descends into it.
   */
  function AttachElse(c: Block, pos: Position, body: seq<Expr>, bodyLast: Option<nat>): (r: Block)
    requires c.stmt.IfStmt? && |FinalElse(c.stmt)| != 1
    ensures r.stmt.IfStmt?
    ensures var l := Links(c.stmt);
      Links(r.stmt) == l[..|l| - 1] + [l[|l| - 1].(elsePos := pos)] + (if ChainsOn(body) then Links(body[0]) else [])
    ensures FinalElse(r.stmt) == if ChainsOn(body) then FinalElse(body[0]) else body
    ensures body != [] && !ChainsOn(body) ==> LastBody(r.stmt) == Some(body)
    ensures ChainsOn(body) ==> LastBody(r.stmt) == LastBody(body[0])
    ensures r.lastStmt == bodyLast
  {
    var e := SetInnerElse(c.stmt, pos, body);
    SetInnerElseLinks(c.stmt, pos, body);
    SetInnerElseFinal(c.stmt, pos, body);
    LastBodyOfChain(e);
    if ChainsOn(body) then
      LastBodyOfChain(body[0]);
      Block(e, bodyLast)
    else
      Block(e, bodyLast)
  }

  /**
   * `if a: 1 elif b: 2 else: 3` is one outer IfStmt whose False branch is the
   * single elif IfStmt, whose own False branch is the else body.
   */
  lemma ElifChainDepth(a: Expr, b: Expr, one: seq<Expr>, two: seq<Expr>, three: seq<Expr>,
                       p1: Position, p2: Position, p3: Position, last: Option<nat>)
    requires |three| == 1 && three[0].LiteralExpr?
    ensures var r := AttachElse(AttachElif(NewIf(p1, a, one, None), p2, b, two, None), p3, three, last).stmt;
      && r.cond == a && r.trueBody == one && |r.falseBody| == 1
      && r.falseBody[0].IfStmt? && r.falseBody[0].cond == b && r.falseBody[0].trueBody == two
      && r.falseBody[0].falseBody == three
  {
    var elif := AttachElif(NewIf(p1, a, one, None), p2, b, two, None).stmt;
    assert elif == IfStmt(NoComments, p1, a, one, p2, [NewIf(p2, b, two, None).stmt]);
    assert SetInnerElse(NewIf(p2, b, two, None).stmt, p3, three) == IfStmt(NoComments, p2, b, two, p3, three);
  }

  /** A comment line indented less than the block; column 0 marks lines added by edits and never counts. */
  predicate IsDedented(c: Comment, indentation: int)
  {
    0 < c.start.lineRune < indentation
  }

  /** No After line of the statement is dedented. */
  predicate NoDedentedLine(e: Expr, indentation: int)
  {
    forall m :: 0 <= m < |e.com.after| ==> !IsDedented(e.com.after[m], indentation)
  }

  /** The index of the first dedented line, if any. */
  function DedentIndex(cs: seq<Comment>, indentation: int): (r: Option<nat>)
    ensures r.Some? ==> r.value < |cs| && IsDedented(cs[r.value], indentation)
    ensures r.Some? ==> forall k :: 0 <= k < r.value ==> !IsDedented(cs[k], indentation)
    ensures r.None? ==> forall k :: 0 <= k < |cs| ==> !IsDedented(cs[k], indentation)
    decreases |cs|
  {
    if cs == [] then None
    else if IsDedented(cs[0], indentation) then Some(0)
    else match DedentIndex(cs[1..], indentation)
      case None => None
      case Some(i) => Some(i + 1)
  }

  /**
   * extractDedentedComment as a value: the statement keeping its After lines
   * up to the first dedented one, and a new CommentBlock holding that line and
   * every line after it.
   */
  function DedentSplit(stmt: Expr, indentation: int): (r: (Expr, Option<Expr>))
    ensures r.1.Some? <==> DedentIndex(stmt.com.after, indentation).Some?
  {
    var a := stmt.com.after;
    match DedentIndex(a, indentation)
    case None => (stmt, None)
    case Some(i) =>
      (WithComments(stmt, stmt.com.(after := a[..i])), Some(CommentBlock(Comments([], [], a[i..]), a[i].start)))
  }

  /** extractDedentedComment: the scan over the After lines. */
  method ExtractDedentedComment(stmt: Expr, indentation: int) returns (kept: Expr, cb: Option<Expr>)
    ensures (kept, cb) == DedentSplit(stmt, indentation)
  {
    kept, cb := stmt, None;
    var after := stmt.com.after;
    var i := 0;
    while i < |after|
      invariant 0 <= i <= |after|
      invariant forall k :: 0 <= k < i ==> !IsDedented(after[k], indentation)
    {
      var line := after[i];
      if line.start.lineRune > 0 && line.start.lineRune < indentation {
        cb := Some(CommentBlock(Comments([], [], after[i..]), line.start));
        kept := WithComments(stmt, stmt.com.(after := after[..i]));
        return;
      }
      i := i + 1;
    }
  }

  /**
   * The lines are split, not lost or reordered; only After changes; the new
   * block starts at its first line, which is dedented, and nothing dedented
   * stays behind.
   */
  lemma DedentSplitProperties(stmt: Expr, indentation: int)
    ensures var (kept, cb) := DedentSplit(stmt, indentation);
      && kept.com.before == stmt.com.before && kept.com.suffix == stmt.com.suffix
      && WithComments(kept, stmt.com) == stmt
      && (forall k :: 0 <= k < |kept.com.after| ==> !IsDedented(kept.com.after[k], indentation))
      && (cb.None? ==> kept == stmt)
      && (cb.Some? ==> && cb.value.CommentBlock? && |cb.value.com.after| > 0
                       && cb.value.start == cb.value.com.after[0].start
                       && IsDedented(cb.value.com.after[0], indentation)
                       && cb.value.com.before == []
                       && kept.com.after + cb.value.com.after == stmt.com.after)
  {
    var a := stmt.com.after;
    match DedentIndex(a, indentation)
    case None =>
    case Some(i) =>
      WithCommentsRestores(stmt, stmt.com.(after := a[..i]));
      assert a[..i] + a[i..] == a;
  }

  /** The block cut from a statement with a dedented line starts with that line. */
  lemma DedentSplitCut(stmt: Expr, indentation: int)
    requires DedentIndex(stmt.com.after, indentation).Some?
    ensures var cb := DedentSplit(stmt, indentation).1;
      cb.Some? && cb.value.CommentBlock? && |cb.value.com.after| > 0 && IsDedented(cb.value.com.after[0], indentation)
  {
    DedentSplitProperties(stmt, indentation);
  }

  /** The comment lines of the statement are those of what stays followed by those of the cut block. */
  lemma DedentSplitLines(stmt: Expr, indentation: int)
    requires DedentIndex(stmt.com.after, indentation).Some?
    ensures var (kept, cb) := DedentSplit(stmt, indentation);
      && cb.Some? && OwnComments(kept) + OwnComments(cb.value) == OwnComments(stmt)
      && (stmt.com.before == [] && kept.com.after == [] ==> OwnComments(cb.value) == OwnComments(stmt))
  {
    DedentSplitProperties(stmt, indentation);
    var (kept, cb) := DedentSplit(stmt, indentation);
    assert kept.com.after + cb.value.com.after == stmt.com.after;
  }

  /** The index of the last statement that is not a CommentBlock, or -1. */
  function LastNonComment(body: seq<Expr>): (r: int)
    ensures -1 <= r < |body|
    ensures 0 <= r ==> !body[r].CommentBlock?
    ensures forall k :: r < k < |body| ==> body[k].CommentBlock?
    decreases |body|
  {
    if body == [] then -1
    else if !body[|body| - 1].CommentBlock? then |body| - 1
    else LastNonComment(body[..|body| - 1])
  }

  /** The first statement at or after `from` holding a dedented After line. */
  function FirstDedentedStmt(body: seq<Expr>, from: nat, indentation: int): (r: Option<nat>)
    requires from <= |body|
    ensures r.Some? ==> from <= r.value < |body| && DedentIndex(body[r.value].com.after, indentation).Some?
    ensures r.Some? ==> forall k :: from <= k < r.value ==> DedentIndex(body[k].com.after, indentation).None?
    ensures r.None? ==> forall k :: from <= k < |body| ==> DedentIndex(body[k].com.after, indentation).None?
    decreases |body| - from
  {
    if from == |body| then None
    else if DedentIndex(body[from].com.after, indentation).Some? then Some(from)
    else FirstDedentedStmt(body, from + 1, indentation)
  }

  /**
   * The trailing part of a block body after the last non-comment statement:
   * at the first statement with a dedented line, that line and the rest of
   * the body are cut off as comments; a CommentBlock left empty is dropped.
   */
  function TrailingSplit(body: seq<Expr>, lastNonComment: nat, indentation: int): (r: (seq<Expr>, seq<Expr>))
    requires lastNonComment < |body|
  {
    match FirstDedentedStmt(body, lastNonComment, indentation)
    case None => (body, [])
    case Some(i) =>
      var p := DedentSplit(body[i], indentation);
      (if i > lastNonComment && p.0.com.after == [] then body[..i] else body[..i] + [p.0],
       [p.1.value] + body[i + 1..])
  }

  /** extractTrailingComments as a value: the block with its last body cut, and the comments cut off. */
  function ExtractTrailing(stmt: Expr, sp: SpanOf): (r: (Expr, seq<Expr>))
  {
    match LastBody(stmt)
    case None => (stmt, [])
    case Some(body) =>
      if body == [] then (stmt, [])
      else
        var lnc := LastNonComment(body);
        if lnc < 0 then (stmt, [])
        else
          var split := TrailingSplit(body, lnc, sp(body[0]).start.lineRune);
          if split.1 == [] then (stmt, []) else (SetLastBody(stmt, split.0), split.1)
  }

  /** The first loop of extractTrailingComments: the index of the last non-comment statement. */
  method FindLastNonComment(body: seq<Expr>) returns (lastNonComment: int)
    ensures lastNonComment == LastNonComment(body)
  {
    lastNonComment := -1;
    var j := 0;
    while j < |body|
      invariant 0 <= j <= |body|
      invariant lastNonComment == LastNonComment(body[..j])
    {
      assert body[..j + 1][..j] == body[..j];
      if !body[j].CommentBlock? {
        lastNonComment := j;
      }
      j := j + 1;
    }
    assert body[..|body|] == body;
  }

  /**
   * The second loop of extractTrailingComments: from the last non-comment
   * statement on, the first extraction cuts the body short and so ends the loop.
   */
  method ScanTrailing(body: seq<Expr>, lastNonComment: nat, indentation: int) returns (b: seq<Expr>, comments: seq<Expr>)
    requires lastNonComment < |body|
    ensures (b, comments) == TrailingSplit(body, lastNonComment, indentation)
  {
    comments := [];
    b := body;
    var i := lastNonComment;
    while i < |b|
      invariant lastNonComment <= i
      invariant comments == [] ==> b == body && i <= |b|
      invariant comments == [] ==>
        FirstDedentedStmt(body, lastNonComment, indentation) == FirstDedentedStmt(body, i, indentation)
      invariant comments != [] ==> (b, comments) == TrailingSplit(body, lastNonComment, indentation) && |b| <= i
      decreases |b| - i
    {
      var kept, cb := ExtractDedentedComment(b[i], indentation);
      if cb.Some? {
        assert FirstDedentedStmt(body, i, indentation) == Some(i);
        comments := [cb.value] + b[i + 1..];
        b := b[..i] + [kept];
        if i > lastNonComment && |kept.com.after| == 0 {
          b := b[..i];
        }
      }
      i := i + 1;
    }
  }

  /** extractTrailingComments: locate the last body, then run both scans over it. */
  method ExtractTrailingComments(stmt: Expr, sp: SpanOf) returns (newStmt: Expr, comments: seq<Expr>)
    ensures (newStmt, comments) == ExtractTrailing(stmt, sp)
  {
    newStmt, comments := stmt, [];
    var last := LastBody(stmt);
    if last.None? || |last.value| == 0 {
      return;
    }
    var body := last.value;
    var lastNonComment := FindLastNonComment(body);
    if lastNonComment == -1 {
      return;
    }
    var b;
    b, comments := ScanTrailing(body, lastNonComment, sp(body[0]).start.lineRune);
    if comments != [] {
      newStmt := SetLastBody(stmt, b);
    }
  }

  /** Every CommentBlock of a body has no Before comments (they only gain After lines). */
  predicate BlocksHaveNoBefore(body: seq<Expr>)
  {
    forall k :: 0 <= k < |body| ==> body[k].CommentBlock? ==> body[k].com.before == []
  }

  /** Replacing body[i] by kept and moving cb and everything after it out keeps the comment order. */
  lemma SplitAtConserves(body: seq<Expr>, i: nat, kept: Expr, cb: Expr, drop: bool)
    requires i < |body|
    requires if drop then OwnComments(cb) == OwnComments(body[i])
             else OwnComments(kept) + OwnComments(cb) == OwnComments(body[i])
    ensures AllComments(if drop then body[..i] else body[..i] + [kept]) + AllComments([cb] + body[i + 1..])
            == AllComments(body)
  {
    var a, rest := body[..i], body[i + 1..];
    calc {
      AllComments([cb] + rest);
      { AllCommentsAppend([cb], rest); AllCommentsSingle(cb); }
      OwnComments(cb) + AllComments(rest);
    }
    AllCommentsAt(body, i);
    if !drop {
      calc {
        AllComments(a + [kept]);
        { AllCommentsAppend(a, [kept]); AllCommentsSingle(kept); }
        AllComments(a) + OwnComments(kept);
      }
    }
  }

  /** The cut at statement i, given that a CommentBlock there would carry no Before comments. */
  lemma TrailingCutConserves(body: seq<Expr>, lnc: nat, i: nat, indentation: int)
    requires lnc <= i < |body| && FirstDedentedStmt(body, lnc, indentation) == Some(i)
    requires i > lnc ==> body[i].com.before == []
    ensures var r := TrailingSplit(body, lnc, indentation);
      AllComments(r.0) + AllComments(r.1) == AllComments(body)
  {
    var p := DedentSplit(body[i], indentation);
    DedentSplitLines(body[i], indentation);
    var kept, cb := p.0, p.1.value;
    var drop := i > lnc && kept.com.after == [];
    assert TrailingSplit(body, lnc, indentation)
        == (if drop then body[..i] else body[..i] + [kept], [cb] + body[i + 1..]);
    SplitAtConserves(body, i, kept, cb, drop);
  }

  /** Cutting the trailing comments loses, duplicates and reorders no comment line. */
  lemma TrailingSplitConserves(body: seq<Expr>, indentation: int)
    requires 0 <= LastNonComment(body) && BlocksHaveNoBefore(body)
    ensures var r := TrailingSplit(body, LastNonComment(body), indentation);
      AllComments(r.0) + AllComments(r.1) == AllComments(body)
  {
    var lnc := LastNonComment(body);
    match FirstDedentedStmt(body, lnc, indentation)
    case None =>
    case Some(i) =>
      if i > lnc {
        assert body[i].CommentBlock?;
      }
      TrailingCutConserves(body, lnc, i, indentation);
  }

  /** With a dedented line in statement i, everything cut is a CommentBlock and the first starts dedented. */
  lemma TrailingCutAt(body: seq<Expr>, lnc: nat, i: nat, indentation: int)
    requires lnc <= i < |body| && FirstDedentedStmt(body, lnc, indentation) == Some(i)
    requires forall k :: lnc < k < |body| ==> body[k].CommentBlock?
    ensures var cut := TrailingSplit(body, lnc, indentation).1;
      && cut != [] && (forall k :: 0 <= k < |cut| ==> cut[k].CommentBlock?)
      && |cut[0].com.after| > 0 && IsDedented(cut[0].com.after[0], indentation)
  {
    var p := DedentSplit(body[i], indentation);
    DedentSplitCut(body[i], indentation);
    var cut := TrailingSplit(body, lnc, indentation).1;
    assert cut == [p.1.value] + body[i + 1..];
    forall k | 0 <= k < |cut| ensures cut[k].CommentBlock? {
      if k > 0 {
        assert cut[k] == body[i + k];
      }
    }
  }

  /** The first i elements followed by x: the prefix before lnc and the elements before i are the old ones. */
  lemma KeptSlice<T>(body: seq<T>, i: nat, x: T, lnc: nat)
    requires lnc <= i < |body|
    ensures var w := body[..i] + [x];
      && |w| == i + 1 && w[..lnc] == body[..lnc] && w[i] == x
      && forall k :: 0 <= k < i ==> w[k] == body[k]
  {
    var w := body[..i] + [x];
    assert w[..lnc] == body[..lnc];
  }

  /** The statements the scan passed over before i hold no dedented line. */
  lemma PassedNoDedent(body: seq<Expr>, lnc: nat, i: nat, indentation: int)
    requires lnc <= i < |body| && FirstDedentedStmt(body, lnc, indentation) == Some(i)
    ensures forall k :: lnc <= k < i ==> NoDedentedLine(body[k], indentation)
  {
    forall k | lnc <= k < i ensures NoDedentedLine(body[k], indentation) {
      assert DedentIndex(body[k].com.after, indentation).None?;
    }
  }

  /** What stays of a statement after its dedented lines are cut holds no dedented line. */
  lemma DedentSplitClean(stmt: Expr, indentation: int)
    ensures NoDedentedLine(DedentSplit(stmt, indentation).0, indentation)
  {
    DedentSplitProperties(stmt, indentation);
  }

  /** With a dedented line in statement i, what stays keeps the prefix and holds no dedented line from lnc on. */
  lemma TrailingKeptAt(body: seq<Expr>, lnc: nat, i: nat, indentation: int)
    requires lnc <= i < |body| && FirstDedentedStmt(body, lnc, indentation) == Some(i)
    ensures var kept := TrailingSplit(body, lnc, indentation).0;
      && lnc < |kept| && kept[..lnc] == body[..lnc]
      && (forall k :: lnc <= k < |kept| ==> NoDedentedLine(kept[k], indentation))
  {
    var p := DedentSplit(body[i], indentation);
    DedentSplitClean(body[i], indentation);
    PassedNoDedent(body, lnc, i, indentation);
    var drop := i > lnc && p.0.com.after == [];
    var kept := if drop then body[..i] else body[..i] + [p.0];
    assert TrailingSplit(body, lnc, indentation).0 == kept;
    KeptSlice(body, i, p.0, lnc);
  }

  /**
   * What is cut is a run of CommentBlocks whose first line is dedented; the
   * statements before the last non-comment statement are untouched, that
   * statement stays in the block, and no dedented line is left from it on.
   */
  lemma TrailingSplitHoists(body: seq<Expr>, indentation: int)
    requires 0 <= LastNonComment(body)
    ensures var lnc := LastNonComment(body);
      var r := TrailingSplit(body, lnc, indentation);
      && lnc < |r.0| && r.0[..lnc] == body[..lnc]
      && (forall k :: 0 <= k < |r.1| ==> r.1[k].CommentBlock?)
      && (r.1 != [] ==> |r.1[0].com.after| > 0 && IsDedented(r.1[0].com.after[0], indentation))
      && (r.1 == [] ==> r.0 == body)
      && (forall k :: lnc <= k < |r.0| ==> NoDedentedLine(r.0[k], indentation))
  {
    var lnc := LastNonComment(body);
    match FirstDedentedStmt(body, lnc, indentation)
    case None =>
      forall k | lnc <= k < |body| ensures NoDedentedLine(body[k], indentation) {
        assert DedentIndex(body[k].com.after, indentation).None?;
      }
    case Some(i) =>
      TrailingCutAt(body, lnc, i, indentation);
      TrailingKeptAt(body, lnc, i, indentation);
  }

  /**
   * extractTrailingComments returns only CommentBlocks, the first starting
   * with a line dedented from the block's first statement; with nothing to
   * hoist the statement comes back unchanged.
   */
  lemma ExtractTrailingHoists(stmt: Expr, sp: SpanOf)
    ensures var (newStmt, cut) := ExtractTrailing(stmt, sp);
      && (forall k :: 0 <= k < |cut| ==> cut[k].CommentBlock?)
      && (cut == [] ==> newStmt == stmt)
      && (cut != [] ==> && LastBody(stmt).Some? && |LastBody(stmt).value| > 0
                        && |cut[0].com.after| > 0
                        && IsDedented(cut[0].com.after[0], sp(LastBody(stmt).value[0]).start.lineRune))
  {
    match LastBody(stmt)
    case None =>
    case Some(body) =>
      if body != [] && 0 <= LastNonComment(body) {
        TrailingSplitHoists(body, sp(body[0]).start.lineRune);
      }
  }

  /**
   * The block comes back with its last body replaced by one that, together
   * with the hoisted comments, holds exactly the comment lines of the old body.
   */
  lemma ExtractTrailingConserves(stmt: Expr, sp: SpanOf)
    requires LastBody(stmt).Some? && BlocksHaveNoBefore(LastBody(stmt).value)
    ensures var (newStmt, cut) := ExtractTrailing(stmt, sp);
      exists kept :: newStmt == SetLastBody(stmt, kept)
                     && AllComments(kept) + AllComments(cut) == AllComments(LastBody(stmt).value)
  {
    var body := LastBody(stmt).value;
    var r := ExtractTrailing(stmt, sp);
    SetLastBodyOfLastBody(stmt);
    if body != [] && 0 <= LastNonComment(body) {
      var split := TrailingSplit(body, LastNonComment(body), sp(body[0]).start.lineRune);
      TrailingSplitConserves(body, sp(body[0]).start.lineRune);
      if split.1 == [] {
        assert r.0 == SetLastBody(stmt, body);
      } else {
        assert r.0 == SetLastBody(stmt, split.0);
      }
    } else {
      assert r.0 == SetLastBody(stmt, body);
    }
  }
}
