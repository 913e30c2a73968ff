/**
 * The file-level lint checks of warn/warn.go, as written in that file: each
 * check scans the top-level statements of a file, reports findings, and with
 * `fix` edits the statement list in place.
 *
 * This file matches assignments as a BinaryExpr whose operator is "=", the
 * shape of an older syntax tree; the parser modelled in Nodes builds an
 * AssignExpr for `x = 1`, so those matches never fire on parsed assignments
 * (lemmas WarnChecks.ParsedAssignmentIsNotRedefinition, ParsedAssignmentHasNoEffect
 * and ParsedKeywordArgFlagged).
 */
module Warn {
  import opened Wrappers
  import opened Syntax
  import opened Strings

  /** A suggested fix: the text between start and end is replaced with content. */
  datatype Replacement = Replacement(description: string, start: Position, end: Position, content: string)

  /** A warning reported by a check (the File it belongs to is left implicit). */
  datatype Finding = Finding(start: Position, end: Position, category: string, message: string,
                             url: string, actionable: bool, replacement: Option<Replacement>)

  const DocPrefix := "https://github.com/bazelbuild/buildtools/blob/master/WARNINGS.md#"

  /** docURL: the anchor of the category in the warnings documentation. */
  function DocURL(category: string): (url: string)
    ensures |url| == |DocPrefix| + |category|
    ensures url[..|DocPrefix|] == DocPrefix && url[|DocPrefix|..] == category
  {
    DocPrefix + category
  }

  /** Different categories link to different anchors. */
  lemma DocURLInjective(a: string, b: string)
    requires DocURL(a) == DocURL(b)
    ensures a == b
  {
    assert a == DocURL(a)[|DocPrefix|..];
  }

  /** makeFinding: the URL is always the documentation anchor of the finding's own category. */
  function MakeFinding(start: Position, end: Position, category: string, message: string,
                       actionable: bool, fix: Option<Replacement>): (r: Finding)
    ensures r.url == DocURL(r.category)
    ensures r.category == category && r.message == message
    ensures r.start == start && r.end == end
    ensures r.actionable == actionable && r.replacement == fix
  {
    Finding(start, end, category, message, DocURL(category), actionable, fix)
  }

  /** A parsed file as the checks see it: its top-level statements, and whether it is a BUILD file. */
  class File {
    var stmt: seq<Expr>
    const isBuild: bool

    constructor (stmt: seq<Expr>, isBuild: bool)
      ensures this.stmt == stmt && this.isBuild == isBuild
    {
      this.stmt := stmt;
      this.isBuild := isBuild;
    }
  }

  // ---------------------------------------------------------------------------
  // load-on-top
  // ---------------------------------------------------------------------------

  /** Statements allowed before the first real statement: docstrings, comment blocks and loads. */
  predicate IsPreamble(e: Expr)
  {
    e.StringExpr? || e.CommentBlock? || e.LoadStmt?
  }

  /** firstStmtIndex: the first statement that is not a load, a string or a comment block (|s| if none). */
  function FirstStmtIndex(s: seq<Expr>): (r: nat)
    ensures r <= |s|
    ensures forall k :: 0 <= k < r ==> IsPreamble(s[k])
    ensures r < |s| ==> !IsPreamble(s[r])
    decreases |s|
  {
    if s == [] || !IsPreamble(s[0]) then 0 else 1 + FirstStmtIndex(s[1..])
  }

  /** The statements of s that are loads (load == true) or that are not (load == false), in order. */
  function Only(s: seq<Expr>, load: bool): seq<Expr>
    decreases |s|
  {
    if s == [] then [] else (if s[0].LoadStmt? == load then [s[0]] else []) + Only(s[1..], load)
  }

  function Loads(s: seq<Expr>): seq<Expr>
  {
    Only(s, true)
  }

  function NonLoads(s: seq<Expr>): seq<Expr>
  {
    Only(s, false)
  }

  lemma {:induction false} OnlyKind(s: seq<Expr>, load: bool)
    ensures forall k :: 0 <= k < |Only(s, load)| ==> Only(s, load)[k].LoadStmt? == load
    decreases |s|
  {
    if s != [] {
      OnlyKind(s[1..], load);
    }
  }

  lemma {:induction false} OnlyAppend(a: seq<Expr>, b: seq<Expr>, load: bool)
    ensures Only(a + b, load) == Only(a, load) + Only(b, load)
    decreases |a|
  {
    if a != [] {
      var head := if a[0].LoadStmt? == load then [a[0]] else [];
      assert (a + b)[1..] == a[1..] + b;
      assert (a + b)[0] == a[0];
      assert Only(a + b, load) == head + Only(a[1..] + b, load);
      OnlyAppend(a[1..], b, load);
      Seqs.Assoc(head, Only(a[1..], load), Only(b, load));
    } else {
      assert a + b == b;
    }
  }

  lemma OnlySingle(e: Expr, load: bool)
    ensures Only([e], load) == if e.LoadStmt? == load then [e] else []
  {
    assert [e][1..] == [];
  }

  lemma FiltersAppend(a: seq<Expr>, b: seq<Expr>)
    ensures Loads(a + b) == Loads(a) + Loads(b)
    ensures NonLoads(a + b) == NonLoads(a) + NonLoads(b)
  {
    OnlyAppend(a, b, true);
    OnlyAppend(a, b, false);
  }

  lemma {:induction false} FiltersSplit(s: seq<Expr>)
    ensures |Loads(s)| + |NonLoads(s)| == |s|
    ensures multiset(Loads(s)) + multiset(NonLoads(s)) == multiset(s)
    decreases |s|
  {
    if s != [] {
      FiltersSplit(s[1..]);
      assert s == [s[0]] + s[1..];
      assert multiset(s) == multiset([s[0]]) + multiset(s[1..]);
      if s[0].LoadStmt? {
        assert Loads(s) == [s[0]] + Loads(s[1..]) && NonLoads(s) == NonLoads(s[1..]);
      } else {
        assert NonLoads(s) == [s[0]] + NonLoads(s[1..]) && Loads(s) == Loads(s[1..]);
      }
    }
  }

  lemma {:induction false} OnlyAll(s: seq<Expr>, load: bool)
    requires forall k :: 0 <= k < |s| ==> s[k].LoadStmt? == load
    ensures Only(s, load) == s && Only(s, !load) == []
    decreases |s|
  {
    if s != [] {
      OnlyAll(s[1..], load);
      assert s == [s[0]] + s[1..];
    }
  }

  lemma FiltersOfLoads(s: seq<Expr>)
    requires forall k :: 0 <= k < |s| ==> s[k].LoadStmt?
    ensures Loads(s) == s && NonLoads(s) == []
  {
    OnlyAll(s, true);
  }

  lemma FiltersOfNonLoads(s: seq<Expr>)
    requires forall k :: 0 <= k < |s| ==> !s[k].LoadStmt?
    ensures Loads(s) == [] && NonLoads(s) == s
  {
    OnlyAll(s, false);
  }

  /**
   * What the fix makes of a statement list: everything before the first real
   * statement stays, then every later load in its order, then every other
   * later statement in its order.
   */
  function LoadsOnTop(s: seq<Expr>): seq<Expr>
  {
    var first := FirstStmtIndex(s);
    s[..first] + Loads(s[first..]) + NonLoads(s[first..])
  }

  /** The fix only moves statements: the result is a permutation of the input. */
  lemma LoadsOnTopPermutes(s: seq<Expr>)
    ensures |LoadsOnTop(s)| == |s|
    ensures multiset(LoadsOnTop(s)) == multiset(s)
  {
    var first := FirstStmtIndex(s);
    var a, l, n := s[..first], Loads(s[first..]), NonLoads(s[first..]);
    FiltersSplit(s[first..]);
    Seqs.MultisetThree(a, l, n, s, first);
  }

  /** The first real statement of the fixed list sits right after the moved loads. */
  lemma LoadsOnTopFirstStmt(s: seq<Expr>)
    requires FirstStmtIndex(s) < |s|
    ensures var first := FirstStmtIndex(s);
      FirstStmtIndex(LoadsOnTop(s)) == first + |Loads(s[first..])|
  {
    var first := FirstStmtIndex(s);
    var a, l, n := s[..first], Loads(s[first..]), NonLoads(s[first..]);
    var r := a + l + n;
    OnlyKind(s[first..], true);
    assert s[first..] == [s[first]] + s[first + 1..];
    FiltersAppend([s[first]], s[first + 1..]);
    assert n[0] == s[first];
    var j := first + |l|;
    assert r[j] == n[0];
    assert forall k :: 0 <= k < j ==> IsPreamble(r[k]) by {
      forall k | 0 <= k < j ensures IsPreamble(r[k]) {
        if k < first { assert r[k] == a[k]; } else { assert r[k] == l[k - first]; }
      }
    }
  }

  /** After the fix, no load follows the first statement that is not a load, string or comment block. */
  lemma LoadsOnTopHoists(s: seq<Expr>)
    ensures var r := LoadsOnTop(s);
      forall k :: FirstStmtIndex(r) <= k < |r| ==> !r[k].LoadStmt?
  {
    var first := FirstStmtIndex(s);
    var r := LoadsOnTop(s);
    if first < |s| {
      LoadsOnTopFirstStmt(s);
      var a, l, n := s[..first], Loads(s[first..]), NonLoads(s[first..]);
      OnlyKind(s[first..], false);
      forall k | FirstStmtIndex(r) <= k < |r| ensures !r[k].LoadStmt? {
        assert r[k] == n[k - first - |l|];
      }
    } else {
      assert s[first..] == [];
    }
  }

  /** The fix keeps the loads in their relative order, and all other statements in theirs. */
  lemma LoadsOnTopKeepsOrder(s: seq<Expr>)
    ensures Loads(LoadsOnTop(s)) == Loads(s)
    ensures NonLoads(LoadsOnTop(s)) == NonLoads(s)
  {
    var first := FirstStmtIndex(s);
    var a, l, n := s[..first], Loads(s[first..]), NonLoads(s[first..]);
    OnlyKind(s[first..], true);
    OnlyKind(s[first..], false);
    FiltersAppend(a + l, n);
    FiltersAppend(a, l);
    FiltersOfLoads(l);
    FiltersOfNonLoads(n);
    FiltersAppend(a, s[first..]);
    assert s == a + s[first..];
  }

  /** A second fix changes nothing. */
  lemma LoadsOnTopIdempotent(s: seq<Expr>)
    ensures LoadsOnTop(LoadsOnTop(s)) == LoadsOnTop(s)
  {
    var first := FirstStmtIndex(s);
    var r := LoadsOnTop(s);
    if first < |s| {
      LoadsOnTopFirstStmt(s);
      var a, l, n := s[..first], Loads(s[first..]), NonLoads(s[first..]);
      Seqs.SplitThree(a, l, n);
      OnlyKind(s[first..], false);
      FiltersOfNonLoads(n);
    } else {
      assert s[first..] == [];
      assert r == s;
    }
  }

  /** The finding for a load statement after the first real statement. */
  function LoadOnTopFinding(load: Expr, sp: SpanOf): Finding
  {
    MakeFinding(sp(load).start, sp(load).end, "load-on-top",
                "Load statements should be at the top of the file.", true, None)
  }

  function LoadOnTopFindingsOf(loads: seq<Expr>, sp: SpanOf): (r: seq<Finding>)
    ensures |r| == |loads|
    ensures forall k :: 0 <= k < |loads| ==> r[k] == LoadOnTopFinding(loads[k], sp)
  {
    seq(|loads|, k requires 0 <= k < |loads| => LoadOnTopFinding(loads[k], sp))
  }

  lemma LoadOnTopFindingsOfAppend(loads: seq<Expr>, e: Expr, sp: SpanOf)
    ensures LoadOnTopFindingsOf(loads + [e], sp) == LoadOnTopFindingsOf(loads, sp) + [LoadOnTopFinding(e, sp)]
  {
  }

  /** Without fix: one finding per load after the first real statement, in file order. */
  function LoadOnTopFindings(s: seq<Expr>, sp: SpanOf): seq<Finding>
  {
    LoadOnTopFindingsOf(Loads(s[FirstStmtIndex(s)..]), sp)
  }

  /** The statement list after the loop has looked at the first i statements, with the fix. */
  function LoadOnTopPartial(s: seq<Expr>, first: nat, i: nat): seq<Expr>
    requires first <= i <= |s|
  {
    s[..first] + Loads(s[first..i]) + NonLoads(s[first..i]) + s[i..]
  }

  /** Cutting a list of four pieces around one element. */
  lemma PiecesSlice<T>(a: seq<T>, l: seq<T>, n: seq<T>, x: T, b: seq<T>)
    ensures var t := a + l + n + ([x] + b);
      var m, j := |a| + |l|, |a| + |l| + |n|;
      && |t| == j + 1 + |b| && t[j] == x
      && t[..m] == a + l && t[m..j] == n && t[j + 1..] == b
  {
    var t := a + l + n + ([x] + b);
    var m, j := |a| + |l|, |a| + |l| + |n|;
    assert t == (a + l) + n + [x] + b;
    assert t[..m] == a + l;
    assert t[m..j] == n;
    assert t[j + 1..] == b;
  }

  /** The state before step i, cut into its pieces. */
  lemma LoadOnTopStepPieces(s: seq<Expr>, first: nat, i: nat)
    requires first <= i < |s|
    ensures var t := LoadOnTopPartial(s, first, i);
      var l, n := Loads(s[first..i]), NonLoads(s[first..i]);
      var moved := first + |l|;
      && |t| == |s| && t[i] == s[i] && moved <= i
      && t[..moved] == s[..first] + l && t[moved..i] == n && t[i + 1..] == s[i + 1..]
  {
    var l, n := Loads(s[first..i]), NonLoads(s[first..i]);
    FiltersSplit(s[first..i]);
    assert s[i..] == [s[i]] + s[i + 1..];
    PiecesSlice(s[..first], l, n, s[i], s[i + 1..]);
  }

  /** Step i on a load: the filtered prefix grows by that load. */
  lemma LoadOnTopStepFilters(s: seq<Expr>, first: nat, i: nat)
    requires first <= i < |s|
    ensures Loads(s[first..i + 1]) == Loads(s[first..i]) + (if s[i].LoadStmt? then [s[i]] else [])
    ensures NonLoads(s[first..i + 1]) == NonLoads(s[first..i]) + (if s[i].LoadStmt? then [] else [s[i]])
  {
    assert s[first..i + 1] == s[first..i] + [s[i]];
    FiltersAppend(s[first..i], [s[i]]);
    OnlySingle(s[i], true);
    OnlySingle(s[i], false);
  }

  /** One step of the loop with the fix, for the statement at index i. */
  lemma LoadOnTopStep(s: seq<Expr>, first: nat, i: nat)
    requires first <= i < |s|
    ensures var t := LoadOnTopPartial(s, first, i);
      var moved := first + |Loads(s[first..i])|;
      && |t| == |s| && t[i] == s[i] && moved <= i
      && (s[i].LoadStmt? ==>
            LoadOnTopPartial(s, first, i + 1) == t[..moved] + [s[i]] + t[moved..i] + t[i + 1..]
            && |Loads(s[first..i + 1])| == |Loads(s[first..i])| + 1)
      && (!s[i].LoadStmt? ==>
            LoadOnTopPartial(s, first, i + 1) == t && |Loads(s[first..i + 1])| == |Loads(s[first..i])|)
  {
    LoadOnTopStepPieces(s, first, i);
    LoadOnTopStepFilters(s, first, i);
    var l, n := Loads(s[first..i]), NonLoads(s[first..i]);
    assert s[i..] == [s[i]] + s[i + 1..];
    Seqs.MoveOne(s[..first], l, n, s[i], s[i + 1..]);
  }

  /** The variables of loadOnTopWarning's loop: the statement list, firstStmtIndex and the findings. */
  datatype TopScan = TopScan(stmts: seq<Expr>, first: int, findings: seq<Finding>)

  /**
   * One pass of the loop body at index i: docstrings and comment blocks are
   * skipped, the first other non-load statement sets firstStmtIndex, and a
   * later load is reported (without fix) or moved to firstStmtIndex (with fix).
   */
  function TopStep(prev: TopScan, i: nat, fix: bool, sp: SpanOf): (r: TopScan)
    requires -1 <= prev.first <= i < |prev.stmts|
    ensures |r.stmts| == |prev.stmts| && -1 <= r.first <= i + 1
  {
    var stmt := prev.stmts[i];
    if stmt.StringExpr? || stmt.CommentBlock? then prev
    else if !stmt.LoadStmt? then (if prev.first == -1 then prev.(first := i) else prev)
    else if prev.first == -1 then prev
    else if !fix then prev.(findings := prev.findings + [LoadOnTopFinding(stmt, sp)])
    else
      var first := prev.first;
      TopScan(prev.stmts[..first] + [stmt] + prev.stmts[first..i] + prev.stmts[i + 1..], first + 1, prev.findings)
  }

  /** The loop variables after the first i passes. */
  function TopState(s: seq<Expr>, fix: bool, sp: SpanOf, i: nat): (r: TopScan)
    requires i <= |s|
    ensures |r.stmts| == |s| && -1 <= r.first <= i
    decreases i
  {
    if i == 0 then TopScan(s, -1, []) else TopStep(TopState(s, fix, sp, i - 1), i - 1, fix, sp)
  }

  /**
   * What the loop variables mean after i passes: before the first real
   * statement nothing has changed; after it, with fix the loads seen so far
   * have been moved up in order, and without fix each has been reported.
   */
  ghost predicate TopInvariant(s: seq<Expr>, fix: bool, sp: SpanOf, i: nat, r: TopScan)
    requires i <= |s|
  {
    var firstOfS := FirstStmtIndex(s);
    && |r.stmts| == |s| && -1 <= r.first <= i
    && (r.first == -1 ==> r.stmts == s && i <= firstOfS && r.findings == [])
    && (r.first != -1 ==> firstOfS < i)
    && (r.first != -1 && fix ==>
          r.stmts == LoadOnTopPartial(s, firstOfS, i) && r.findings == []
          && r.first == firstOfS + |Loads(s[firstOfS..i])|)
    && (r.first != -1 && !fix ==> r.stmts == s && r.findings == LoadOnTopFindingsOf(Loads(s[firstOfS..i]), sp))
  }

  /** One pass of the loop keeps that meaning. */
  lemma TopStepKeeps(s: seq<Expr>, fix: bool, sp: SpanOf, i: nat, prev: TopScan)
    requires i < |s| && TopInvariant(s, fix, sp, i, prev)
    ensures TopInvariant(s, fix, sp, i + 1, TopStep(prev, i, fix, sp))
  {
    if prev.first == -1 {
      TopStepBefore(s, fix, sp, i, prev);
    } else if fix {
      TopStepFixed(s, sp, i, prev);
    } else {
      TopStepReported(s, sp, i, prev);
    }
  }

  lemma TopStepBefore(s: seq<Expr>, fix: bool, sp: SpanOf, i: nat, prev: TopScan)
    requires i < |s| && TopInvariant(s, fix, sp, i, prev) && prev.first == -1
    ensures TopInvariant(s, fix, sp, i + 1, TopStep(prev, i, fix, sp))
  {
    var firstOfS := FirstStmtIndex(s);
    if !IsPreamble(s[i]) {
      assert firstOfS == i;
      assert s[firstOfS..i] == [];
      assert LoadOnTopPartial(s, i, i) == s;
      LoadOnTopStep(s, firstOfS, i);
      LoadOnTopStepFilters(s, firstOfS, i);
    }
  }

  lemma TopStepFixed(s: seq<Expr>, sp: SpanOf, i: nat, prev: TopScan)
    requires i < |s| && TopInvariant(s, true, sp, i, prev) && prev.first != -1
    ensures TopInvariant(s, true, sp, i + 1, TopStep(prev, i, true, sp))
  {
    var firstOfS := FirstStmtIndex(s);
    LoadOnTopStep(s, firstOfS, i);
    assert prev.stmts[i] == s[i];
  }

  lemma TopStepReported(s: seq<Expr>, sp: SpanOf, i: nat, prev: TopScan)
    requires i < |s| && TopInvariant(s, false, sp, i, prev) && prev.first != -1
    ensures TopInvariant(s, false, sp, i + 1, TopStep(prev, i, false, sp))
  {
    var firstOfS := FirstStmtIndex(s);
    LoadOnTopStepFilters(s, firstOfS, i);
    assert prev.stmts[i] == s[i];
    if s[i].LoadStmt? {
      LoadOnTopFindingsOfAppend(Loads(s[firstOfS..i]), s[i], sp);
    }
  }

  /** The state after i passes has that meaning. */
  lemma {:induction false} TopStateMeaning(s: seq<Expr>, fix: bool, sp: SpanOf, i: nat)
    requires i <= |s|
    ensures TopInvariant(s, fix, sp, i, TopState(s, fix, sp, i))
    decreases i
  {
    if i > 0 {
      TopStateMeaning(s, fix, sp, i - 1);
      TopStepKeeps(s, fix, sp, i - 1, TopState(s, fix, sp, i - 1));
    }
  }

  /** The whole loop: with fix it computes LoadsOnTop and reports nothing; without fix it only reports. */
  lemma TopStateFinal(s: seq<Expr>, fix: bool, sp: SpanOf)
    ensures var r := TopState(s, fix, sp, |s|);
      && (fix ==> r.stmts == LoadsOnTop(s) && r.findings == [])
      && (!fix ==> r.stmts == s && r.findings == LoadOnTopFindings(s, sp))
  {
    TopStateMeaning(s, fix, sp, |s|);
    var firstOfS := FirstStmtIndex(s);
    var r := TopState(s, fix, sp, |s|);
    if r.first == -1 {
      assert s[firstOfS..] == [];
    } else {
      assert s[firstOfS..|s|] == s[firstOfS..];
    }
  }

  /** One pass of loadOnTopWarning's loop, at index i. */
  method TopPass(f: File, i: nat, firstStmtIndex: int, findings: seq<Finding>, fix: bool, sp: SpanOf)
    returns (first': int, findings': seq<Finding>)
    requires -1 <= firstStmtIndex <= i < |f.stmt|
    modifies f
    ensures TopScan(f.stmt, first', findings') == TopStep(TopScan(old(f.stmt), firstStmtIndex, findings), i, fix, sp)
  {
    first', findings' := firstStmtIndex, findings;
    var stmt := f.stmt[i];
    if stmt.StringExpr? || stmt.CommentBlock? {
      return;
    }
    if !stmt.LoadStmt? {
      if firstStmtIndex == -1 {
        first' := i;
      }
      return;
    }
    if firstStmtIndex == -1 {
      return;
    }
    if !fix {
      findings' := findings + [LoadOnTopFinding(stmt, sp)];
      return;
    }
    f.stmt := f.stmt[..firstStmtIndex] + [stmt] + f.stmt[firstStmtIndex..i] + f.stmt[i + 1..];
    first' := firstStmtIndex + 1;
  }

  /**
   * loadOnTopWarning.  With fix, every load after the first real statement is
   * moved up to just before it; without fix, each such load is reported.
   */
  method LoadOnTopWarning(f: File, fix: bool, sp: SpanOf) returns (findings: seq<Finding>)
    modifies f
    ensures fix ==> f.stmt == LoadsOnTop(old(f.stmt)) && findings == []
    ensures !fix ==> f.stmt == old(f.stmt) && findings == LoadOnTopFindings(old(f.stmt), sp)
  {
    ghost var s := f.stmt;
    findings := [];
    var firstStmtIndex := -1;
    var i := 0;
    while i < |f.stmt|
      invariant i <= |s| && TopScan(f.stmt, firstStmtIndex, findings) == TopState(s, fix, sp, i)
      decreases |s| - i
    {
      firstStmtIndex, findings := TopPass(f, i, firstStmtIndex, findings, fix, sp);
      i := i + 1;
    }
    assert i == |s| && TopScan(f.stmt, firstStmtIndex, findings) == TopState(s, fix, sp, |s|);
    TopStateFinal(s, fix, sp);
  }

  // ---------------------------------------------------------------------------
  // load: unused and duplicate load pairs
  // ---------------------------------------------------------------------------

  /** edit.ContainsComments, taken to look at a node's own comments only (it is not part of this model). */
  type Contains = (Comments, string) -> bool

  /** A node whose comments mention `@unused` is exempt from the unused-load warning. */
  predicate MarkedUnused(contains: Contains, com: Comments)
  {
    contains(com, "@unused")
  }

  /** The loop reads From[i] for every To[i], so every load needs at least as many From names as To names. */
  ghost predicate LoadsPaired(s: seq<Expr>)
  {
    forall k :: 0 <= k < |s| && s[k].LoadStmt? ==> |s[k].from| >= |s[k].to|
  }

  /** What the loop decides about one pair. */
  datatype PairVerdict = AlreadyLoaded | Unused | Kept

  /**
   * A pair is a duplicate when its local name was loaded before, and unused
   * when the name is not used and neither the load, the local name nor the
   * symbol carries an `@unused` comment.
   */
  function Verdict(loaded: set<string>, used: set<string>, loadMarked: bool, from: Name, to: Name,
                   contains: Contains): PairVerdict
  {
    if to.name in loaded then AlreadyLoaded
    else if to.name !in used && !loadMarked && !MarkedUnused(contains, to.com) && !MarkedUnused(contains, from.com)
    then Unused
    else Kept
  }

  /** The finding for a pair that is not kept; the duplicate category is spelled "usused-load" as in the source. */
  function UnusedLoadFinding(v: PairVerdict, to: Name, sp: SpanOf): Finding
  {
    var span := sp(NameExpr(to));
    if v == AlreadyLoaded then
      MakeFinding(span.start, span.end, "usused-load", "Symbol \"" + to.name + AlreadyLoadedMessage, true, None)
    else
      MakeFinding(span.start, span.end, "load", "Loaded symbol \"" + to.name + UnusedMessage, true, None)
  }

  const AlreadyLoadedMessage := "\" has already been loaded. Please remove it."
  const UnusedMessage := "\" is unused. Please remove it.\nTo disable the warning, add '@unused' in a comment."

  /** The inputs the check takes besides the statements: UsedSymbols, the fix flag, ContainsComments and Span. */
  datatype LoadContext = LoadContext(used: set<string>, fix: bool, contains: Contains, sp: SpanOf)

  /** The findings one pair contributes when it is reported: none when it is kept. */
  function PairFindings(v: PairVerdict, to: Name, sp: SpanOf): seq<Finding>
  {
    if v == Kept then [] else [UnusedLoadFinding(v, to, sp)]
  }

  /** The pairs left in a load, the names loaded afterwards, and the findings for the load. */
  datatype PairScan = PairScan(from: seq<Name>, to: seq<Name>, loaded: set<string>, findings: seq<Finding>)

  /**
   * The inner loop over the pairs of one load statement, from pair k on.  With
   * fix a pair that is not kept is removed; without fix it is reported.  Its
   * name counts as loaded from then on either way.  `marked` says whether the
   * load statement itself carries an `@unused` comment.
   */
  function PairsFrom(c: LoadContext, marked: bool, from: seq<Name>, to: seq<Name>, k: nat, loaded: set<string>): PairScan
    requires k <= |to| <= |from|
    decreases |to| - k
  {
    if k == |to| then PairScan(from[k..], [], loaded, [])
    else
      var v := Verdict(loaded, c.used, marked, from[k], to[k], c.contains);
      var rest := PairsFrom(c, marked, from, to, k + 1, loaded + {to[k].name});
      if v == Kept || !c.fix then
        PairScan([from[k]] + rest.from, [to[k]] + rest.to, rest.loaded, PairFindings(v, to[k], c.sp) + rest.findings)
      else rest
  }

  /** The inner loop run over the whole of one load statement. */
  function ScanPairs(c: LoadContext, l: Expr, loaded: set<string>): PairScan
    requires l.LoadStmt? && |l.from| >= |l.to|
  {
    PairsFrom(c, MarkedUnused(c.contains, l.com), l.from, l.to, 0, loaded)
  }

  /** The state of the outer loop: the statements so far, the names loaded so far, and all findings so far. */
  datatype LoadScan = LoadScan(stmts: seq<Expr>, loaded: set<string>, findings: seq<Finding>)

  /** The load statement with the pairs the scan left. */
  function WithPairs(l: Expr, from: seq<Name>, to: seq<Name>): Expr
    requires l.LoadStmt?
  {
    LoadStmt(l.com, l.loadPos, l.modulePath, from, to, l.rparen, l.forceCompact)
  }

  /** What replaces a scanned load: nothing when fix left it without pairs, else the load with the remaining pairs. */
  function KeptLoad(c: LoadContext, l: Expr, p: PairScan): seq<Expr>
    requires l.LoadStmt?
  {
    if c.fix && p.to == [] then [] else [WithPairs(l, p.from, p.to)]
  }

  /**
   * The outer loop after the first j statements: other statements are kept,
   * each load is scanned with the names loaded before it, and with fix a load
   * left without pairs is deleted.
   */
  function LoadsUpTo(c: LoadContext, s: seq<Expr>, j: nat): LoadScan
    requires j <= |s| && LoadsPaired(s)
    decreases j
  {
    if j == 0 then LoadScan([], {}, [])
    else
      var prev := LoadsUpTo(c, s, j - 1);
      var l := s[j - 1];
      if !l.LoadStmt? then LoadScan(prev.stmts + [l], prev.loaded, prev.findings)
      else
        var p := ScanPairs(c, l, prev.loaded);
        LoadScan(prev.stmts + KeptLoad(c, l, p), p.loaded, prev.findings + p.findings)
  }

  /** The whole outer loop over a file's statements. */
  function ScanLoads(c: LoadContext, s: seq<Expr>): LoadScan
    requires LoadsPaired(s)
  {
    LoadsUpTo(c, s, |s|)
  }

  /** The pairs kept so far followed by what the rest of the scan yields make up the whole scan. */
  predicate PairsDone(keptFrom: seq<Name>, keptTo: seq<Name>, findings: seq<Finding>, rest: PairScan, whole: PairScan)
  {
    keptFrom + rest.from == whole.from && keptTo + rest.to == whole.to
    && rest.loaded == whole.loaded && findings + rest.findings == whole.findings
  }

  /** Keeping the current pair (with the findings it produces) keeps PairsDone. */
  lemma DoneKeep(keptFrom: seq<Name>, keptTo: seq<Name>, findings: seq<Finding>, fr: Name, t: Name,
                 extra: seq<Finding>, next: PairScan, whole: PairScan)
    requires PairsDone(keptFrom, keptTo, findings,
                       PairScan([fr] + next.from, [t] + next.to, next.loaded, extra + next.findings), whole)
    ensures PairsDone(keptFrom + [fr], keptTo + [t], findings + extra, next, whole)
  {
    assert keptFrom + ([fr] + next.from) == keptFrom + [fr] + next.from;
    assert keptTo + ([t] + next.to) == keptTo + [t] + next.to;
    assert findings + (extra + next.findings) == findings + extra + next.findings;
  }

  /**
   * A list made of a processed prefix and the unprocessed suffix of xs from k:
   * its element at the seam, and the list after removing or replacing that element.
   */
  lemma Splice<T>(kept: seq<T>, xs: seq<T>, k: nat, y: T)
    requires k < |xs|
    ensures var w := kept + xs[k..];
      && w[|kept|] == xs[k]
      && w[..|kept|] + w[|kept| + 1..] == kept + xs[k + 1..]
      && w[|kept| := y] == (kept + [y]) + xs[k + 1..]
      && w == (kept + [xs[k]]) + xs[k + 1..]
  {
    var w := kept + xs[k..];
    assert w[..|kept|] == kept;
    assert w[|kept| + 1..] == xs[k + 1..];
  }

  /** One pass of the inner loop over pair k keeps PairsDone, whether the pair is dropped or kept. */
  lemma PairsStep(c: LoadContext, marked: bool, from0: seq<Name>, to0: seq<Name>, k: nat, loaded: set<string>,
                  keptFrom: seq<Name>, keptTo: seq<Name>, findings: seq<Finding>, whole: PairScan)
    requires k < |to0| <= |from0|
    requires PairsDone(keptFrom, keptTo, findings, PairsFrom(c, marked, from0, to0, k, loaded), whole)
    ensures var v := Verdict(loaded, c.used, marked, from0[k], to0[k], c.contains);
      var next := PairsFrom(c, marked, from0, to0, k + 1, loaded + {to0[k].name});
      && (v != Kept && c.fix ==> PairsDone(keptFrom, keptTo, findings, next, whole))
      && (v == Kept || !c.fix ==>
            PairsDone(keptFrom + [from0[k]], keptTo + [to0[k]], findings + PairFindings(v, to0[k], c.sp), next, whole))
  {
    var v := Verdict(loaded, c.used, marked, from0[k], to0[k], c.contains);
    var next := PairsFrom(c, marked, from0, to0, k + 1, loaded + {to0[k].name});
    if v == Kept || !c.fix {
      DoneKeep(keptFrom, keptTo, findings, from0[k], to0[k], PairFindings(v, to0[k], c.sp), next, whole);
    }
  }

  /** The state of the inner loop: kept pairs so far, then the pairs of the load from k on. */
  ghost predicate PairLoop(c: LoadContext, marked: bool, from0: seq<Name>, to0: seq<Name>, whole: PairScan,
                           from: seq<Name>, to: seq<Name>, i: nat, loaded: set<string>, findings: seq<Finding>,
                           keptFrom: seq<Name>, keptTo: seq<Name>, k: nat)
  {
    && k <= |to0| <= |from0| && |keptFrom| == i && |keptTo| == i
    && from == keptFrom + from0[k..] && to == keptTo + to0[k..]
    && PairsDone(keptFrom, keptTo, findings, PairsFrom(c, marked, from0, to0, k, loaded), whole)
  }

  /** One pass of the inner loop: the pair at i is dropped (with fix) or kept and reported. */
  method PairPass(c: LoadContext, marked: bool, ghost from0: seq<Name>, ghost to0: seq<Name>, ghost whole: PairScan,
                  from: seq<Name>, to: seq<Name>, i: nat, loaded: set<string>, findings: seq<Finding>,
                  ghost keptFrom: seq<Name>, ghost keptTo: seq<Name>, ghost k: nat)
    returns (from': seq<Name>, to': seq<Name>, i': nat, loaded': set<string>, findings': seq<Finding>,
             ghost keptFrom': seq<Name>, ghost keptTo': seq<Name>, ghost k': nat)
    requires i < |to| && PairLoop(c, marked, from0, to0, whole, from, to, i, loaded, findings, keptFrom, keptTo, k)
    ensures PairLoop(c, marked, from0, to0, whole, from', to', i', loaded', findings', keptFrom', keptTo', k')
    ensures |to'| - i' < |to| - i
  {
    Splice(keptFrom, from0, k, from0[k]);
    Splice(keptTo, to0, k, to0[k]);
    var fr, t := from[i], to[i];
    var v := Verdict(loaded, c.used, marked, fr, t, c.contains);
    PairsStep(c, marked, from0, to0, k, loaded, keptFrom, keptTo, findings, whole);
    if v != Kept && c.fix {
      to' := to[..i] + to[i + 1..];
      from' := from[..i] + from[i + 1..];
      i', findings', keptFrom', keptTo' := i, findings, keptFrom, keptTo;
    } else {
      var extra := PairFindings(v, t, c.sp);
      from', to', findings' := from, to, findings + extra;
      keptFrom', keptTo' := keptFrom + [fr], keptTo + [t];
      i' := i + 1;
    }
    loaded' := loaded + {t.name};
    k' := k + 1;
  }

  /** The inner loop of unusedLoadWarning, removing pairs in place with the `i--` idiom. */
  method ScanLoadPairs(c: LoadContext, load: Expr, loaded: set<string>)
    returns (from: seq<Name>, to: seq<Name>, loadedAfter: set<string>, findings: seq<Finding>)
    requires load.LoadStmt? && |load.from| >= |load.to|
    ensures PairScan(from, to, loadedAfter, findings) == ScanPairs(c, load, loaded)
  {
    var marked := MarkedUnused(c.contains, load.com);
    ghost var from0, to0 := load.from, load.to;
    ghost var whole := PairsFrom(c, marked, from0, to0, 0, loaded);
    from, to, loadedAfter, findings := load.from, load.to, loaded, [];
    ghost var keptFrom: seq<Name>, keptTo: seq<Name> := [], [];
    ghost var k: nat := 0;
    var i: nat := 0;
    assert from0[0..] == from0 && to0[0..] == to0;
    while i < |to|
      invariant PairLoop(c, marked, from0, to0, whole, from, to, i, loadedAfter, findings, keptFrom, keptTo, k)
      decreases |to| - i
    {
      from, to, i, loadedAfter, findings, keptFrom, keptTo, k :=
        PairPass(c, marked, from0, to0, whole, from, to, i, loadedAfter, findings, keptFrom, keptTo, k);
    }
  }

  /**
   * The body of the outer loop at a load statement: its pairs are scanned and,
   * with fix, the load is rewritten in place or deleted from the file.
   */
  method RewriteLoad(f: File, stmtIndex: nat, c: LoadContext, loaded: set<string>)
    returns (removed: bool, loadedAfter: set<string>, findings: seq<Finding>)
    requires stmtIndex < |f.stmt| && f.stmt[stmtIndex].LoadStmt?
    requires |f.stmt[stmtIndex].from| >= |f.stmt[stmtIndex].to|
    modifies f
    ensures var l := old(f.stmt[stmtIndex]);
      var p := ScanPairs(c, l, loaded);
      && f.stmt == old(f.stmt[..stmtIndex]) + KeptLoad(c, l, p) + old(f.stmt[stmtIndex + 1..])
      && loadedAfter == p.loaded && findings == p.findings && removed == (KeptLoad(c, l, p) == [])
  {
    var load := f.stmt[stmtIndex];
    var from, to;
    from, to, loadedAfter, findings := ScanLoadPairs(c, load, loaded);
    if c.fix && |to| == 0 {
      f.stmt := f.stmt[..stmtIndex] + f.stmt[stmtIndex + 1..];
      removed := true;
    } else {
      if c.fix {
        f.stmt := f.stmt[stmtIndex := WithPairs(load, from, to)];
      } else {
        PairsReportOnly(c, MarkedUnused(c.contains, load.com), load.from, load.to, 0, loaded);
        assert load.from[0..] == load.from && load.to[0..] == load.to;
      }
      removed := false;
      assert f.stmt == old(f.stmt[..stmtIndex]) + [WithPairs(load, from, to)] + old(f.stmt[stmtIndex + 1..]);
    }
  }

  /** The state of the outer loop of unusedLoadWarning after j statements of s. */
  ghost predicate LoadLoop(c: LoadContext, s: seq<Expr>, j: nat, state: LoadScan, stmtIndex: nat, stmts: seq<Expr>,
                           loaded: set<string>, findings: seq<Finding>)
  {
    && j <= |s| && LoadsPaired(s) && state == LoadsUpTo(c, s, j)
    && stmtIndex == |state.stmts| && stmts == state.stmts + s[j..]
    && loaded == state.loaded && findings == state.findings
  }

  /** One pass of the outer loop: a statement that is not a load is stepped over, a load is rewritten. */
  method LoadPass(f: File, c: LoadContext, ghost s: seq<Expr>, ghost j: nat, ghost state: LoadScan, stmtIndex: nat,
                  loaded: set<string>, findings: seq<Finding>)
    returns (stmtIndex': nat, loaded': set<string>, findings': seq<Finding>, ghost state': LoadScan)
    requires stmtIndex < |f.stmt| && LoadLoop(c, s, j, state, stmtIndex, f.stmt, loaded, findings)
    modifies f
    ensures LoadLoop(c, s, j + 1, state', stmtIndex', f.stmt, loaded', findings')
  {
    var stmt := f.stmt[stmtIndex];
    Splice(state.stmts, s, j, stmt);
    assert stmt == s[j];
    if !stmt.LoadStmt? {
      state' := LoadScan(state.stmts + [stmt], loaded, findings);
      assert state' == LoadsUpTo(c, s, j + 1);
      stmtIndex', loaded', findings' := stmtIndex + 1, loaded, findings;
      return;
    }
    ghost var kept := KeptLoad(c, stmt, ScanPairs(c, stmt, loaded));
    var removed, loadedAfter, newFindings := RewriteLoad(f, stmtIndex, c, loaded);
    assert f.stmt == (state.stmts + kept) + s[j + 1..];
    state' := LoadScan(state.stmts + kept, loadedAfter, findings + newFindings);
    assert state' == LoadsUpTo(c, s, j + 1);
    findings' := findings + newFindings;
    loaded' := loadedAfter;
    stmtIndex' := if removed then stmtIndex else stmtIndex + 1;
  }

  /**
   * unusedLoadWarning.  `used` is the set edit.UsedSymbols computes for the
   * file before the loop; `contains` stands for edit.ContainsComments.
   */
  method UnusedLoadWarning(f: File, fix: bool, used: set<string>, contains: Contains, sp: SpanOf)
    returns (findings: seq<Finding>)
    requires LoadsPaired(f.stmt)
    modifies f
    ensures var r := ScanLoads(LoadContext(used, fix, contains, sp), old(f.stmt));
      f.stmt == r.stmts && findings == r.findings
  {
    var c := LoadContext(used, fix, contains, sp);
    ghost var s := f.stmt;
    findings := [];
    var loaded: set<string> := {};
    ghost var j: nat := 0;
    var stmtIndex: nat := 0;
    ghost var state := LoadScan([], {}, []);
    LoadLoopStart(c, s);
    while stmtIndex < |f.stmt|
      invariant j <= |s| && LoadLoop(c, s, j, state, stmtIndex, f.stmt, loaded, findings)
      decreases |s| - j
    {
      stmtIndex, loaded, findings, state := LoadPass(f, c, s, j, state, stmtIndex, loaded, findings);
      j := j + 1;
    }
    LoadLoopDone(c, s, j, state, stmtIndex, f.stmt, loaded, findings);
  }

  /** Before the outer loop nothing has been scanned. */
  lemma LoadLoopStart(c: LoadContext, s: seq<Expr>)
    requires LoadsPaired(s)
    ensures LoadLoop(c, s, 0, LoadScan([], {}, []), 0, s, {}, [])
  {
    assert s[0..] == s;
  }

  /** When the outer loop stops, every statement has been scanned. */
  lemma LoadLoopDone(c: LoadContext, s: seq<Expr>, j: nat, state: LoadScan, stmtIndex: nat, stmts: seq<Expr>,
                     loaded: set<string>, findings: seq<Finding>)
    requires LoadLoop(c, s, j, state, stmtIndex, stmts, loaded, findings) && stmtIndex >= |stmts|
    ensures stmts == ScanLoads(c, s).stmts && findings == ScanLoads(c, s).findings
  {
    assert j == |s| && stmts == state.stmts + [];
  }

  // ---- properties of the pair scan ---------------------------------------------

  /** The local names of a list of load pairs. */
  function NameSet(ns: seq<Name>): set<string>
  {
    set n | n in ns :: n.name
  }

  /** No name is already loaded, and no name occurs twice. */
  predicate FreshNames(ns: seq<Name>, loaded: set<string>)
  {
    && (forall a :: 0 <= a < |ns| ==> ns[a].name !in loaded)
    && (forall a, b :: 0 <= a < b < |ns| ==> ns[a].name != ns[b].name)
  }

  lemma NameSetStep(to: seq<Name>, k: nat, i: nat)
    requires k <= i < |to|
    ensures NameSet(to[k..i + 1]) == NameSet(to[k..i]) + {to[i].name}
    ensures k < |to| ==> NameSet(to[k..]) == {to[k].name} + NameSet(to[k + 1..])
  {
    assert to[k..i + 1] == to[k..i] + [to[i]];
    assert to[k..] == [to[k]] + to[k + 1..];
  }

  /** Without fix nothing is removed: From and To come back as they were. */
  lemma {:induction false} PairsReportOnly(c: LoadContext, marked: bool, from: seq<Name>, to: seq<Name>, k: nat,
                                           loaded: set<string>)
    requires k <= |to| <= |from|
    ensures var r := PairsFrom(c, marked, from, to, k, loaded);
      !c.fix ==> r.from == from[k..] && r.to == to[k..]
    decreases |to| - k
  {
    if k < |to| {
      PairsReportOnly(c, marked, from, to, k + 1, loaded + {to[k].name});
      assert from[k..] == [from[k]] + from[k + 1..] && to[k..] == [to[k]] + to[k + 1..];
    }
  }

  /**
   * Pairs are removed together: From keeps as many extra entries over To as
   * it had (none, for a parsed load), every kept name is one of the load's,
   * and every local name of the load is loaded afterwards.
   */
  lemma {:induction false} PairsShape(c: LoadContext, marked: bool, from: seq<Name>, to: seq<Name>, k: nat,
                                      loaded: set<string>)
    requires k <= |to| <= |from|
    ensures var r := PairsFrom(c, marked, from, to, k, loaded);
      && |r.from| - |r.to| == |from| - |to|
      && (forall a :: 0 <= a < |r.to| ==> r.to[a] in to[k..])
      && r.loaded == loaded + NameSet(to[k..])
    decreases |to| - k
  {
    if k < |to| {
      PairsShape(c, marked, from, to, k + 1, loaded + {to[k].name});
      NameSetStep(to, k, k);
      var rest := PairsFrom(c, marked, from, to, k + 1, loaded + {to[k].name});
      forall a | 0 <= a < |rest.to|
        ensures rest.to[a] in to[k..]
      {
        assert rest.to[a] in to[k + 1..];
      }
    } else {
      assert to[k..] == [];
    }
  }

  /** With fix the names that stay are pairwise distinct and were not loaded before the load. */
  lemma {:induction false} PairsFresh(c: LoadContext, marked: bool, from: seq<Name>, to: seq<Name>, k: nat,
                                      loaded: set<string>)
    requires k <= |to| <= |from|
    ensures c.fix ==> FreshNames(PairsFrom(c, marked, from, to, k, loaded).to, loaded)
    decreases |to| - k
  {
    if k < |to| && c.fix {
      PairsFresh(c, marked, from, to, k + 1, loaded + {to[k].name});
      var rest := PairsFrom(c, marked, from, to, k + 1, loaded + {to[k].name});
      var r := PairsFrom(c, marked, from, to, k, loaded);
      if r != rest {
        assert r.to == [to[k]] + rest.to;
        forall a, b | 0 <= a < b < |r.to|
          ensures r.to[a].name != r.to[b].name
        {
          if a > 0 {
            assert r.to[a] == rest.to[a - 1];
          }
          assert r.to[b] == rest.to[b - 1];
        }
      }
    }
  }

  /**
   * A pair is removed only when its name was loaded before or it is unused and
   * unmarked: a pair whose name is new at that point and is used, or whose
   * load, local name or symbol carries `@unused`, stays.
   */
  lemma {:induction false} PairsKeepNeeded(c: LoadContext, marked: bool, from: seq<Name>, to: seq<Name>, k: nat,
                                           loaded: set<string>, i: nat)
    requires k <= i < |to| <= |from|
    requires to[i].name !in loaded + NameSet(to[k..i])
    requires to[i].name in c.used || marked || MarkedUnused(c.contains, to[i].com) || MarkedUnused(c.contains, from[i].com)
    ensures var r := PairsFrom(c, marked, from, to, k, loaded);
      to[i] in r.to && from[i] in r.from
    decreases |to| - k
  {
    if k == i {
      assert to[k..i] == [];
      PairsKeptHere(c, marked, from, to, k, loaded);
    } else {
      NameSetStep(to, k, k);
      assert to[k..i] == [to[k]] + to[k + 1..i];
      assert NameSet(to[k..i]) == {to[k].name} + NameSet(to[k + 1..i]);
      PairsKeepNeeded(c, marked, from, to, k + 1, loaded + {to[k].name}, i);
      PairsFromKeepsRest(c, marked, from, to, k, loaded, to[i], from[i]);
    }
  }

  /** A pair whose name is new and needed is kept by the pass over it. */
  lemma PairsKeptHere(c: LoadContext, marked: bool, from: seq<Name>, to: seq<Name>, k: nat, loaded: set<string>)
    requires k < |to| <= |from|
    requires to[k].name !in loaded
    requires to[k].name in c.used || marked || MarkedUnused(c.contains, to[k].com) || MarkedUnused(c.contains, from[k].com)
    ensures var r := PairsFrom(c, marked, from, to, k, loaded);
      to[k] in r.to && from[k] in r.from
  {
    var r := PairsFrom(c, marked, from, to, k, loaded);
    assert Verdict(loaded, c.used, marked, from[k], to[k], c.contains) == Kept;
    assert r.to[0] == to[k] && r.from[0] == from[k];
  }

  /** A pair the scan keeps from k + 1 on is also kept by the scan from k. */
  lemma PairsFromKeepsRest(c: LoadContext, marked: bool, from: seq<Name>, to: seq<Name>, k: nat, loaded: set<string>,
                           t: Name, fr: Name)
    requires k < |to| <= |from|
    requires var rest := PairsFrom(c, marked, from, to, k + 1, loaded + {to[k].name});
      t in rest.to && fr in rest.from
    ensures var r := PairsFrom(c, marked, from, to, k, loaded);
      t in r.to && fr in r.from
  {
    var rest := PairsFrom(c, marked, from, to, k + 1, loaded + {to[k].name});
    var r := PairsFrom(c, marked, from, to, k, loaded);
    var v := Verdict(loaded, c.used, marked, from[k], to[k], c.contains);
    if v == Kept || !c.fix {
      assert r.to == [to[k]] + rest.to && r.from == [from[k]] + rest.from;
    }
  }

  /** Fixing removes exactly as many pairs as reporting flags. */
  lemma {:induction false} PairsFixMatchesReport(c: LoadContext, marked: bool, from: seq<Name>, to: seq<Name>, k: nat,
                                                 loaded: set<string>)
    requires k <= |to| <= |from|
    ensures var fixed := PairsFrom(LoadContext(c.used, true, c.contains, c.sp), marked, from, to, k, loaded);
      var reported := PairsFrom(LoadContext(c.used, false, c.contains, c.sp), marked, from, to, k, loaded);
      |fixed.to| + |reported.findings| == |to| - k
    decreases |to| - k
  {
    if k < |to| {
      PairsFixMatchesReport(c, marked, from, to, k + 1, loaded + {to[k].name});
    }
  }

  // ---- properties of the statement scan ----------------------------------------

  /** Every load's From and To lists have the same length, as the parser builds them. */
  ghost predicate LoadsEqualPaired(s: seq<Expr>)
  {
    forall k :: 0 <= k < |s| && s[k].LoadStmt? ==> |s[k].from| == |s[k].to|
  }

  /** The local names of all loads, in order. */
  function LoadedNames(s: seq<Expr>): seq<Name>
    decreases |s|
  {
    if s == [] then [] else LoadedNames(s[..|s| - 1]) + (if s[|s| - 1].LoadStmt? then s[|s| - 1].to else [])
  }

  lemma LoadedNamesSnoc(xs: seq<Expr>, x: Expr)
    ensures LoadedNames(xs + [x]) == LoadedNames(xs) + (if x.LoadStmt? then x.to else [])
  {
    assert (xs + [x])[..|xs|] == xs;
  }

  lemma FreshAppend(xs: seq<Name>, ys: seq<Name>, loaded: set<string>, later: set<string>)
    requires FreshNames(xs, loaded) && FreshNames(ys, later)
    requires loaded + NameSet(xs) <= later
    ensures FreshNames(xs + ys, loaded)
  {
    var zs := xs + ys;
    forall a, b | 0 <= a < b < |zs|
      ensures zs[a].name != zs[b].name
    {
      if a < |xs| && b >= |xs| {
        assert zs[a] in xs;
        assert zs[b] == ys[b - |xs|];
      } else if a >= |xs| {
        assert zs[a] == ys[a - |xs|] && zs[b] == ys[b - |xs|];
      }
    }
    forall a | 0 <= a < |zs|
      ensures zs[a].name !in loaded
    {
      if a >= |xs| {
        assert zs[a] == ys[a - |xs|];
      }
    }
  }

  lemma NameSetAppend(xs: seq<Name>, ys: seq<Name>)
    ensures NameSet(xs + ys) == NameSet(xs) + NameSet(ys)
  {
    forall x | x in NameSet(xs + ys) ensures x in NameSet(xs) + NameSet(ys) {
      var n :| n in xs + ys && n.name == x;
    }
  }

  /** Without fix the statements come back unchanged. */
  lemma {:induction false} LoadsReportOnly(c: LoadContext, s: seq<Expr>, j: nat)
    requires j <= |s| && LoadsPaired(s)
    ensures !c.fix ==> LoadsUpTo(c, s, j).stmts == s[..j]
    decreases j
  {
    if j > 0 && !c.fix {
      LoadsReportOnly(c, s, j - 1);
      assert s[..j] == s[..j - 1] + [s[j - 1]];
      var l := s[j - 1];
      if l.LoadStmt? {
        var prev := LoadsUpTo(c, s, j - 1);
        PairsReportOnly(c, MarkedUnused(c.contains, l.com), l.from, l.to, 0, prev.loaded);
        assert l.from[0..] == l.from && l.to[0..] == l.to;
      }
    }
  }

  /** With fix no load is left without pairs, and loads from the parser stay evenly paired. */
  lemma {:induction false} LoadsFixShape(c: LoadContext, s: seq<Expr>, j: nat)
    requires j <= |s| && LoadsPaired(s)
    ensures var r := LoadsUpTo(c, s, j).stmts;
      && (c.fix ==> forall k :: 0 <= k < |r| && r[k].LoadStmt? ==> r[k].to != [])
      && (LoadsEqualPaired(s) ==> LoadsEqualPaired(r))
    decreases j
  {
    if j > 0 {
      LoadsFixShape(c, s, j - 1);
      var prev := LoadsUpTo(c, s, j - 1);
      var l := s[j - 1];
      if l.LoadStmt? {
        PairsShape(c, MarkedUnused(c.contains, l.com), l.from, l.to, 0, prev.loaded);
      }
    }
  }

  /** The names a scan keeps are among the load's own names. */
  lemma KeptNamesWithin(c: LoadContext, l: Expr, loaded: set<string>)
    requires l.LoadStmt? && |l.from| >= |l.to|
    ensures var p := ScanPairs(c, l, loaded);
      NameSet(p.to) <= NameSet(l.to) && p.loaded == loaded + NameSet(l.to)
  {
    var p := ScanPairs(c, l, loaded);
    PairsShape(c, MarkedUnused(c.contains, l.com), l.from, l.to, 0, loaded);
    assert l.to[0..] == l.to;
    forall x | x in NameSet(p.to) ensures x in NameSet(l.to) {
      var n :| n in p.to && n.name == x;
      var a :| 0 <= a < |p.to| && p.to[a] == n;
    }
  }

  /** A statement that is not a load adds no local name. */
  lemma LoadedNamesSkip(stmts: seq<Expr>, l: Expr)
    requires !l.LoadStmt?
    ensures LoadedNames(stmts + [l]) == LoadedNames(stmts)
  {
    LoadedNamesSnoc(stmts, l);
    assert LoadedNames(stmts) + [] == LoadedNames(stmts);
  }

  /** One load statement scanned with fix keeps the local names distinct and recorded. */
  lemma LoadFreshStep(c: LoadContext, stmts: seq<Expr>, loaded: set<string>, l: Expr)
    requires c.fix && l.LoadStmt? && |l.from| >= |l.to|
    requires FreshNames(LoadedNames(stmts), {}) && NameSet(LoadedNames(stmts)) <= loaded
    ensures var p := ScanPairs(c, l, loaded);
      var out := LoadedNames(stmts + KeptLoad(c, l, p));
      FreshNames(out, {}) && NameSet(out) <= p.loaded
  {
    var p := ScanPairs(c, l, loaded);
    KeptNamesWithin(c, l, loaded);
    PairsFresh(c, MarkedUnused(c.contains, l.com), l.from, l.to, 0, loaded);
    var xs := LoadedNames(stmts);
    if p.to == [] {
      assert stmts + KeptLoad(c, l, p) == stmts;
    } else {
      LoadedNamesSnoc(stmts, WithPairs(l, p.from, p.to));
      FreshAppend(xs, p.to, {}, loaded);
      NameSetAppend(xs, p.to);
    }
  }

  /** The names the loads kept after j statements load are distinct, and all of them are recorded as loaded. */
  ghost predicate LoadsFreshAt(c: LoadContext, s: seq<Expr>, j: nat)
    requires j <= |s| && LoadsPaired(s)
  {
    var r := LoadsUpTo(c, s, j);
    FreshNames(LoadedNames(r.stmts), {}) && NameSet(LoadedNames(r.stmts)) <= r.loaded
  }

  /**
   * With fix the local names across all loads that remain are pairwise
   * distinct, and each of them is among the names loaded so far.
   */
  lemma LoadsFresh(c: LoadContext, s: seq<Expr>, j: nat)
    requires j <= |s| && LoadsPaired(s) && c.fix
    ensures LoadsFreshAt(c, s, j)
  {
    LoadsFreshEmpty(c, s);
    for k := 0 to j
      invariant LoadsFreshAt(c, s, k)
    {
      LoadsFreshStep(c, s, k + 1);
    }
  }

  lemma LoadsFreshEmpty(c: LoadContext, s: seq<Expr>)
    requires LoadsPaired(s)
    ensures LoadsFreshAt(c, s, 0)
  {
    assert LoadsUpTo(c, s, 0).stmts == [] && LoadedNames([]) == [];
    assert NameSet([]) == {};
  }

  lemma LoadsFreshStep(c: LoadContext, s: seq<Expr>, j: nat)
    requires 0 < j <= |s| && LoadsPaired(s) && c.fix
    requires LoadsFreshAt(c, s, j - 1)
    ensures LoadsFreshAt(c, s, j)
  {
    var prev := LoadsUpTo(c, s, j - 1);
    var l := s[j - 1];
    if !l.LoadStmt? {
      assert LoadsUpTo(c, s, j).stmts == prev.stmts + [l] && LoadsUpTo(c, s, j).loaded == prev.loaded;
      LoadedNamesSkip(prev.stmts, l);
    } else {
      var p := ScanPairs(c, l, prev.loaded);
      assert LoadsUpTo(c, s, j).stmts == prev.stmts + KeptLoad(c, l, p) && LoadsUpTo(c, s, j).loaded == p.loaded;
      LoadFreshStep(c, prev.stmts, prev.loaded, l);
    }
  }
}
