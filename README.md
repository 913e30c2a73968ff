# buildtools core: parser actions, lint checks and diagnostics in Dafny

This project models the core of buildtools, the Starlark (BUILD / .bzl)
formatter and linter, and proves properties of that model. It covers five
source files.

- **build/parse.y.go**. The model covers:
  - the hand-written helpers of the generated parser: `unary`, `binary`,
    `isSimpleExpression`, the layout flags `forceCompact`, `forceMultiLine`
    and `forceMultiLineComprehension`, `getLastBody`,
    `extractDedentedComment` and `extractTrailingComments`;
  - the semantic actions of the reductions that thread the statement list
    and its comment attachment point (cases 2 and 6–14);
  - the actions that build def and for statements (cases 15 and 16) and
    grow if/elif/else chains (cases 18, 19 and 21), each carrying the
    lastStmt of the suite it ends with on to case 14;
  - the actions that choose between a parenthesised expression and a tuple
    (case 51), flatten comma lists (cases 74 and 125), fold `is not` and
    `not in` (cases 100 and 108), and pair load arguments (cases 41 and 60–63).
- **warn/warn.go**. The lint checks `loadOnTopWarning`,
  `unusedLoadWarning`, `redefinedVariableWarning`, `duplicatedNameWarning`,
  `packageOnTopWarning`, `noEffectStatementsCheck` / `noEffectWarning`,
  `integerDivisionWarning`, `constantGlobWarning` and
  `positionalArgumentsWarning`. It also covers the finding constructors
  `makeFinding` and `docURL`, and the driver `FileWarnings` with its
  comment filter `DisabledWarning`.
- **warn/warn_operation.go**. The type-directed selectors
  `dictionaryConcatenationWarning`, `stringIterationWarning` and
  `integerDivisionWarning`, which builds a replacement copy.
- **buildifier/utils/diagnostics.go**. The diagnostics report:
  - `NewDiagnostics`, `NewFileDiagnostics`, `InvalidFileDiagnostics`,
    `SetRewrites` and `makePosition`;
  - the text and dispatch branches of `Format`.
- **buildifier/utils/utils.go**. The file-name classification in
  `isStarlarkFile` and the parser selection in `GetParser`.

The syntax tree is the datatype `Syntax.Expr`. Every node carries its
`Comments` (Before, Suffix and After lines), as every Go node embeds them. The
parser's in-place writes become functional updates whose results are stated
exactly. `Span` belongs to a file that is not part of this model. Every member
that needs it receives it as a parameter `sp`. The statement list of a
reduction, `(exprs, lastStmt)`, is `Statements.StmtList`, and `lastStmt` is
the index of the last statement or `None`. Every statement-list action is
proved to keep that invariant. A block-statement reduction is `Blocks.Block`:
the node and the lastStmt of the suite it ended with, which case 14 reads.

Code that works step by step stays imperative; each such method is proved
equal to a specification function. Examples:
- the scans of the layout flags;
- the loops of the lint checks;
- the in-place editing of `f.Stmt` and of `From`/`To` in `loadOnTopWarning`
  and `unusedLoadWarning`. These are methods on `Warn.File`. After a removal the
  index is not advanced, the net effect of the source's `i--` and `i++`;
- `SetRewrites` on the class `Diagnostics.FileDiagnostics`;
- the text layout of `Format`.

The properties are then proved about those functions. Examples:
- the load fix permutes the statements, hoists every load, keeps both
  orders, and applying it twice changes nothing;
- the unused-load fix keeps `From`/`To` paired, leaves distinct names, and
  removes only what it reports;
- `extractTrailingComments` loses, duplicates and reorders no comment line;
- the fold of a comment into the next statement keeps every comment line in
  order;
- an if/elif/else chain is determined by its links and its else body;
- `isStarlarkFile` is characterised without reference to `filepath.Ext`.

The two files in `warn/` come from different generations of the linter API
and are modelled each as written.
- `warn/warn.go` recognises an assignment as a `BinaryExpr` with
  operator `=`, but `binary` in build/parse.y.go:159-181 builds an
  `AssignExpr` for `=` and the other update operators. The model keeps both
  and proves the consequences:
  - `WarnChecks.ParsedAssignmentIsNotRedefinition`;
  - `WarnChecks.ParsedUpdateNotDivision`;
  - `WarnChecks.ParsedKeywordArgFlagged`;
  - `WarnChecks.ParsedAssignmentHasNoEffect`.
- `warn/warn_operation.go` matches the `AssignExpr` form
  (`WarnOperation.ParsedDivisionsReported`).
- The category of the second unused-load finding is spelled `usused-load`
  in warn/warn.go:140. The model keeps that spelling.

Two layout and comment rules of the code are easy to misread, and the
model states them as the code has them.
- A comment line directly below a statement is first appended to that
  statement's After comments. When another statement follows in the same
  list, case 10 (build/parse.y.go:1046-1078) moves it to that statement's
  Before comments and clears the After list
  (`Statements.CommentReattachment`). It stays an After comment only on the
  last statement of a list.
- A compact argument list needs each element to *start* on the line where
  the previous one ended. An element itself may span lines
  (`Layout.CompactAllowsMultiLineElement`).

## Model

| member | source | states |
|---|---|---|
| Syntax.WithComments | build/parse.y.go:1061-1078 | Writing a node's Comments sets exactly those and keeps its kind |
| Syntax.WithCommentsRestores | build/parse.y.go:1061-1078 | Putting a node's old comments back after a write restores the node: only Comments change |
| Syntax.AllCommentsAt | build/parse.y.go:983-1078 | The comment lines of a statement list are those before, of, and after any one statement, in order |
| Layout.IsSimpleExpression | build/parse.y.go:187-206 | Never a call, operator or parenthesised node; a collection only when empty; a unary only over a simple operand that is not itself unary |
| Layout.ForceMultiLine | build/parse.y.go:264-280 | Only for zero or one element: with none, iff the brackets are on different lines; with one, iff it does not start on the open bracket's line and end on the close bracket's |
| Layout.ForceCompact | build/parse.y.go:187-261 | The scan with a running line equals CompactLayout: at least two elements, all simple, the first on the bracket line, each starting where the previous ended, the close bracket on the last end line |
| Layout.ComprehensionPieces | build/parse.y.go:283-298 | The pieces of a comprehension are bracket, body, every clause, bracket: as many as the clauses plus three |
| Layout.ForceMultiLineComprehension | build/parse.y.go:283-298 | The scan with previousEnd is true exactly when some consecutive pair of pieces is on different lines |
| Layout.CompactNeedsTwoElements | build/parse.y.go:241-247 | Fewer than two elements are never forced compact |
| Layout.CompactRejectsCompoundElement | build/parse.y.go:187-210 | Any element that is not a simple expression rules compact mode out |
| Layout.CompactOnOneLine | build/parse.y.go:241-261 | Two or more simple elements that all sit on the bracket line, with the close bracket on it too, are forced compact |
| Layout.CompactExcludesMultiLine | build/parse.y.go:241-280 | forceCompact and forceMultiLine are never both true |
| Layout.MultiLineSingleIsComprehensionRule | build/parse.y.go:264-298 | For one element and no clauses, forceMultiLine and the comprehension rule agree |
| Layout.CompactAllowsMultiLineElement | build/parse.y.go:241-261 | Instance, not a general property (see Layout.ForceCompact): A two-line string followed by a name on its end line is still compact |
| Nodes.Unary | build/parse.y.go:147-155 | A UnaryExpr with no comments; it is a simple expression exactly when its operand is a literal or an identifier |
| Nodes.Binary | build/parse.y.go:159-181 | An AssignExpr exactly for the eight update operators, else a BinaryExpr; LineBreak iff the left operand ends on an earlier line than the right starts |
| Nodes.BinaryRoundTrip | build/parse.y.go:159-181 | The node built reads back as exactly its operands, position and operator, with no comments |
| Nodes.IsOperation | build/parse.y.go:1801-1810 | Over a unary `not`, one BinaryExpr "is not" whose right operand is not's operand; otherwise the node of the operator read, over the operands unchanged |
| Nodes.NotIn | build/parse.y.go:1753-1758 | One BinaryExpr "not in" over the two operands, positioned at `not`, with LineBreak from the spans |
| Nodes.IsNotFolds | build/parse.y.go:1801-1810 | `x is not z` is one BinaryExpr "is not" over x and z, not over the `not` node |
| Nodes.IsWithoutNot | build/parse.y.go:1801-1810 | `x is y` with any other right operand keeps y and the operator "is" |
| Nodes.NotInIsOneNode | build/parse.y.go:1753-1758 | `x not in y` is one BinaryExpr "not in" positioned at `not` |
| Nodes.AppendTupleElement | build/parse.y.go:1593-1608 | `x, y` extends an unbracketed tuple x, keeping its flags, else starts an unbracketed compact tuple [x, y] |
| Nodes.CommaListFlattens | build/parse.y.go:1899-1914 | The tuple of a comma list holds exactly its operands, in order |
| Nodes.ParenOrTuple | build/parse.y.go:1424-1445 | A ParenExpr iff exactly one element and no trailing comma, else a bracketed TupleExpr; the layout flags are the layout functions |
| Nodes.ParenOrTupleKeepsElements | build/parse.y.go:1424-1445 | Either node holds the parsed elements unchanged and in order |
| Nodes.ParenVersusOneTuple | build/parse.y.go:1424-1445 | Instance, not a general property (see Nodes.ParenOrTuple): `(1)` is a ParenExpr and `(1,)` a one-element TupleExpr |
| Nodes.SymbolPos | build/parse.y.go:1504-1511 | A load symbol's position is past its opening quote: one column, or three for a triple-quoted string |
| Nodes.PlainLoadArg | build/parse.y.go:1504-1525 | `"a"` loads a under its own name |
| Nodes.AliasedLoadArg | build/parse.y.go:1526-1544 | `b = "c"` loads c under the local name b |
| Nodes.BuildLoad | build/parse.y.go:1293-1308 | From and To have one entry per argument, paired by index; compact iff `load` and `)` are on one line |
| Nodes.LoadAliasing | build/parse.y.go:1504-1544 | Instance, not a general property (see Nodes.BuildLoad): In `load(":x.bzl", "a", b = "c")` the pairs are a from a and b from c |
| Statements.AddComment | build/parse.y.go:1018-1031 | A comment with no attachment point opens a CommentBlock at its position, else it joins the last statement's After lines |
| Statements.AddCommentAppends | build/parse.y.go:1087-1100 | The comment line comes after every comment line already in the list, and nothing else changes |
| Statements.BlankLine | build/parse.y.go:1079-1086 | A blank line keeps the statements and drops the attachment point |
| Statements.SimpleStmt | build/parse.y.go:1101-1107 | A simple statement line holds its expressions, the last taking later comments |
| Statements.AddStmt | build/parse.y.go:1046-1078 | An open CommentBlock is dissolved into the next statement's Before; otherwise the last statement's After moves to the next statement's Before |
| Statements.AddStmtConserves | build/parse.y.go:1046-1078 | Adding a statement loses, duplicates and reorders no comment line |
| Statements.AddStmtConservesAttached | build/parse.y.go:1061-1078 | The same when there is a last statement whose After comments move |
| Statements.JoinConserves | build/parse.y.go:1046-1078 | Joining two lists whose boundary nodes swap comments keeps the comment order |
| Statements.BlockStmt | build/parse.y.go:1108-1121 | A block followed by the comment blocks hoisted from its end; lastStmt is the block when nothing is hoisted, else the last hoisted block, or None when the block's last suite ended severed (the lastStmt the block reduction carries) |
| Statements.Suite | build/parse.y.go:983-1004 | The comment blocks come first, and the last becomes the first statement's Before when it sits on the line above |
| Statements.SuiteConserves | build/parse.y.go:983-1004 | A suite moves comment lines between nodes but loses, duplicates and reorders none |
| Statements.CommentReattachment | build/parse.y.go:1068-1077 | Instance, not a general property (see Statements.AddStmtConservesAttached): In `foo()` / `# bar` / `baz()` the comment becomes Before of baz() and foo() keeps no After |
| Statements.BlankLineThenComment | build/parse.y.go:1046-1100 | Instance, not a general property (see Statements.AddStmt): A comment opened after a blank line is dissolved into the next statement's Before |
| Statements.BlankLineSevering | build/parse.y.go:1079-1100 | Instance, not a general property (see Statements.BlankLine): With blank lines on both sides a comment stays a standalone CommentBlock |
| Blocks.LastBody | build/parse.y.go:365-383 | getLastBody has a result exactly for def, for and if statements |
| Blocks.SetLastBody | build/parse.y.go:365-383 | Writing through the reference getLastBody returns keeps the node's kind, comments and (for an if) its condition, and leaves a last body to read |
| Blocks.SetLastBodyOfLastBody | build/parse.y.go:365-383 | Writing back the body that was read changes nothing |
| Blocks.LastBodyOfSetLastBody | build/parse.y.go:365-383 | Reading after writing returns the body written, unless the new body looks like an elif tail |
| Blocks.Links | build/parse.y.go:1158-1200 | The links of a chain start with the outermost if |
| Blocks.FinalElse | build/parse.y.go:1169-1200 | The else body of a chain never continues the chain |
| Blocks.Rebuild | build/parse.y.go:1169-1200 | Nesting links and an else body gives an IfStmt |
| Blocks.RebuildOfChain | build/parse.y.go:1169-1200 | A chain is determined by its links and its else body |
| Blocks.ChainOfRebuild | build/parse.y.go:1169-1200 | Rebuilding and reading back gives the same links and else body |
| Blocks.LastBodyOfChain | build/parse.y.go:365-383 | The last body of a chain is its else body, or the True body of its last link when the else body is empty |
| Blocks.SetInnerElse | build/parse.y.go:1169-1200 | The `len(inner.False) == 1` walk and write yield an IfStmt |
| Blocks.SetInnerElseLinks | build/parse.y.go:1169-1200 | The outer links keep Cond and True, the innermost one records the new ElsePos, and the links of the new False follow |
| Blocks.SetInnerElseFinal | build/parse.y.go:1169-1200 | The new else body is the written branch, or the else body of the chain it continues |
| Blocks.NewDef | build/parse.y.go:1122-1138 | A def whose last body is its suite, carrying the suite's lastStmt; the layout flags are forceCompact and forceMultiLine of the parameters, never both |
| Blocks.NewFor | build/parse.y.go:1139-1150 | A for whose last body is its suite, carrying the suite's lastStmt |
| Blocks.NewIf | build/parse.y.go:1158-1168 | `if cond: suite` is a one-link chain with no else whose last body is the suite, carrying the suite's lastStmt |
| Blocks.AttachElif | build/parse.y.go:1169-1187 | elif adds one link at the innermost end and leaves every other link as it was; the elif suite becomes the last body and its lastStmt replaces the chain's |
| Blocks.AttachElse | build/parse.y.go:1188-1200 | else sets the innermost False and ElsePos and leaves every other link as it was; a non-empty else suite that does not continue the chain becomes the last body; its lastStmt replaces the chain's |
| Blocks.ElifChainDepth | build/parse.y.go:1158-1200 | Instance, not a general property (see Blocks.AttachElse): `if a: 1 elif b: 2 else: 3` is an IfStmt whose False is the single elif IfStmt, whose False is the else body |
| Blocks.DedentIndex | build/parse.y.go:346-361 | The index of the first After line with 0 < LineRune < indentation, or None when there is none |
| Blocks.DedentSplit | build/parse.y.go:346-361 | A CommentBlock is cut off exactly when some After line is dedented |
| Blocks.ExtractDedentedComment | build/parse.y.go:346-361 | The scan over After equals DedentSplit |
| Blocks.DedentSplitProperties | build/parse.y.go:346-361 | The lines are split into prefix and suffix, not lost or reordered; only After changes; nothing is cut when no line is dedented |
| Blocks.DedentSplitCut | build/parse.y.go:346-361 | The block cut off starts at the first dedented line |
| Blocks.DedentSplitLines | build/parse.y.go:346-361 | The comment lines of the statement are those kept followed by those of the cut block |
| Blocks.DedentSplitClean | build/parse.y.go:346-361 | What stays holds no dedented line |
| Blocks.LastNonComment | build/parse.y.go:312-318 | The index of the last statement that is not a CommentBlock, or -1 |
| Blocks.FirstDedentedStmt | build/parse.y.go:325-338 | The first statement from an index on with a dedented After line |
| Blocks.FindLastNonComment | build/parse.y.go:312-318 | The first loop of extractTrailingComments equals LastNonComment |
| Blocks.ScanTrailing | build/parse.y.go:325-338 | The second loop equals TrailingSplit |
| Blocks.ExtractTrailingComments | build/parse.y.go:304-343 | The whole of extractTrailingComments equals ExtractTrailing |
| Blocks.TrailingSplitConserves | build/parse.y.go:325-338 | Cutting trailing comments loses, duplicates and reorders no comment line |
| Blocks.TrailingSplitHoists | build/parse.y.go:319-338 | Only CommentBlocks starting with a dedented line are cut; the statements up to the last non-comment one stay |
| Blocks.ExtractTrailingHoists | build/parse.y.go:304-343 | Only CommentBlocks are hoisted, the first starting dedented; with nothing to hoist the block is unchanged |
| Blocks.ExtractTrailingConserves | build/parse.y.go:304-343 | The new last body plus the hoisted blocks hold exactly the comment lines of the old body |
| Warn.DocURL | warn/warn.go:43-45 | The documentation prefix followed by the category |
| Warn.DocURLInjective | warn/warn.go:43-45 | Different categories get different URLs |
| Warn.MakeFinding | warn/warn.go:48-59 | A finding with the given fields whose URL is the anchor of its own category |
| Warn.File.constructor | warn/warn.go:261-296 | A file holds its statements and whether it is a BUILD file |
| Warn.FirstStmtIndex | warn/warn.go:263-277 | The first statement that is not a load, string or comment block; all before it are |
| Warn.LoadsOnTopPermutes | warn/warn.go:287-292 | The fix is a permutation of the statements |
| Warn.LoadsOnTopFirstStmt | warn/warn.go:287-293 | The first real statement sits right after the moved loads |
| Warn.LoadsOnTopHoists | warn/warn.go:261-296 | After the fix no load follows the first statement that is not a load, string or comment block |
| Warn.LoadsOnTopKeepsOrder | warn/warn.go:287-292 | Loads keep their relative order, and so do the other statements |
| Warn.LoadsOnTopIdempotent | warn/warn.go:261-296 | A second fix changes nothing |
| Warn.LoadOnTopFindingsOf | warn/warn.go:281-285 | One load-on-top finding per misplaced load, in order |
| Warn.LoadOnTopStep | warn/warn.go:287-293 | One move keeps the list a permutation built from the prefix, the loads seen and the rest |
| Warn.TopStepKeeps | warn/warn.go:264-294 | One pass of the loop keeps its invariant |
| Warn.TopStateMeaning | warn/warn.go:264-294 | After i passes the loop variables satisfy the invariant |
| Warn.TopStateFinal | warn/warn.go:261-296 | The whole loop: with fix it computes LoadsOnTop and reports nothing; without fix it changes nothing and reports |
| Warn.TopPass | warn/warn.go:265-293 | One pass of the loop body over the file is the step function |
| Warn.LoadOnTopWarning | warn/warn.go:261-296 | With fix f.Stmt becomes LoadsOnTop of the old statements and nothing is reported; without fix f.Stmt is unchanged and each misplaced load is reported |
| Warn.PairsStep | warn/warn.go:128-162 | One pass of the inner loop keeps its invariant, whether the pair is dropped or kept |
| Warn.PairPass | warn/warn.go:128-162 | One pass of the inner loop keeps the loop state and makes progress; after a removal the index is not advanced (the net effect of `i--; i++`) |
| Warn.ScanLoadPairs | warn/warn.go:128-162 | The inner loop equals the scan function over the pairs |
| Warn.RewriteLoad | warn/warn.go:124-167 | A load is rewritten in place with its remaining pairs, or deleted when fix leaves none |
| Warn.LoadPass | warn/warn.go:123-167 | One pass of the outer loop keeps its state |
| Warn.UnusedLoadWarning | warn/warn.go:118-170 | The statements and findings equal ScanLoads of the old statements |
| Warn.LoadLoopStart | warn/warn.go:119-123 | Before the outer loop nothing has been scanned |
| Warn.LoadLoopDone | warn/warn.go:123-169 | When the outer loop stops every statement has been scanned |
| Warn.PairsReportOnly | warn/warn.go:152-158 | Without fix From and To come back as they were |
| Warn.PairsShape | warn/warn.go:128-162 | Pairs are removed together; kept names are the load's own; every local name counts as loaded afterwards |
| Warn.PairsFresh | warn/warn.go:128-162 | With fix the names kept are distinct and were not loaded before |
| Warn.PairsKeepNeeded | warn/warn.go:132-161 | A pair is removed only if its name was loaded before, or it is unused and carries no `@unused` comment |
| Warn.PairsKeptHere | warn/warn.go:132-161 | A new and needed pair is kept by the pass over it |
| Warn.PairsFromKeepsRest | warn/warn.go:128-162 | Pairs kept by the later passes are also kept by the whole scan |
| Warn.PairsFixMatchesReport | warn/warn.go:128-162 | Fixing removes exactly as many pairs as reporting flags |
| Warn.LoadsReportOnly | warn/warn.go:123-168 | Without fix the statements come back unchanged |
| Warn.LoadsFixShape | warn/warn.go:163-167 | With fix no load is left without pairs, and evenly paired loads stay evenly paired |
| Warn.KeptNamesWithin | warn/warn.go:128-162 | The kept names are among the load's own names |
| Warn.LoadFreshStep | warn/warn.go:123-167 | Scanning one load with fix keeps all local names distinct and recorded |
| Warn.LoadsFresh | warn/warn.go:118-170 | With fix the local names across all remaining loads are pairwise distinct |
| WarnChecks.AssignedBeforeMeans | warn/warn.go:172-198 | A name is in definedSymbols after j statements iff one of them assigns it |
| WarnChecks.RedefinedVariableWarning | warn/warn.go:172-198 | The findings are exactly the redefinitions in order |
| WarnChecks.NoAssignmentsNoRedefinitions | warn/warn.go:176-186 | Statements that are not `=` BinaryExprs are never flagged |
| WarnChecks.ParsedAssignmentIsNotRedefinition | warn/warn.go:176-186 | A parsed `x = 1` is an AssignExpr, which this check does not take for an assignment |
| WarnChecks.RedefinitionExample | warn/warn.go:172-198 | Instance, not a general property (see WarnChecks.AssignedBeforeMeans): `x = 1`, `x = 2` flags only the second |
| WarnChecks.FirstNamed | warn/warn.go:204-232 | The index of the first rule of a name |
| WarnChecks.FirstNamedSnoc | warn/warn.go:204-232 | The first rule of a name stays first when more rules follow |
| WarnChecks.DuplicateStep | warn/warn.go:215-230 | One loop pass adds a finding for a name already recorded, else records it |
| WarnChecks.DuplicatedNameWarning | warn/warn.go:204-232 | Nothing for a non-BUILD file; otherwise the findings are exactly the duplicates |
| WarnChecks.FirstOccurrenceNotFlagged | warn/warn.go:215-230 | A rule with a new or empty name adds no finding |
| WarnChecks.LaterDuplicateFlagged | warn/warn.go:211-230 | A later rule with a used name adds one finding citing the line of the first rule |
| WarnChecks.FirstPackage | warn/warn.go:234-259 | The index of the first package() call |
| WarnChecks.PackageOnTop | warn/warn.go:234-259 | At most one finding, and only when there is a package() call |
| WarnChecks.PackageOnTopWarning | warn/warn.go:234-259 | The loop with seenRule equals PackageOnTop |
| WarnChecks.PackageFirstNoFinding | warn/warn.go:234-259 | No finding when package() comes before every rule or macro call |
| WarnChecks.PackageAfterRuleFlagged | warn/warn.go:234-259 | A rule before the first package() gives exactly one finding, for that package() |
| WarnChecks.IsBranchStmt | warn/warn.go:317-325 | Exactly the identifiers break, continue and pass; the parser's BranchStmt node is never one |
| WarnChecks.SeenNonCommentStep | warn/warn.go:327-367 | seenNonComment after j + 1 statements is its old value or `statement j is not a comment` |
| WarnChecks.NoEffectStatementsCheck | warn/warn.go:327-367 | The loop appends exactly the findings for the body, in order |
| WarnChecks.ExemptNeverFlagged | warn/warn.go:317-367 | Blocks, loads, returns, calls, comments, update operators and break/continue/pass are never flagged |
| WarnChecks.DocstringNotFlagged | warn/warn.go:327-367 | A leading string is not flagged at top level or in a function, and is elsewhere |
| WarnChecks.SecondStringFlagged | warn/warn.go:327-367 | A second string is flagged even at top level |
| WarnChecks.ComparisonFlaggedUpdateNot | warn/warn.go:327-367 | `x == y` is flagged, a BinaryExpr `x += y` is not |
| WarnChecks.ComprehensionFlagging | warn/warn.go:327-367 | A list comprehension is flagged except at top level, a set comprehension everywhere |
| WarnChecks.ParsedAssignmentHasNoEffect | warn/warn.go:327-367 | A parsed `x = 1` (AssignExpr) or `pass` (BranchStmt) after the first statement is flagged |
| WarnChecks.CheckBlock | warn/warn.go:415-432 | The Walk callback appends the findings of a for body, a def body, or both if branches |
| WarnChecks.CheckBlocks | warn/warn.go:415-432 | The callback applied to each visited node in turn |
| WarnChecks.NoEffectWarning | warn/warn.go:415-432 | The top-level findings, then those of every block in walk order |
| WarnChecks.IntegerDivisionWarning | warn/warn.go:298-315 | With fix every division is rewritten and nothing reported; without fix nothing changes and each is reported |
| WarnChecks.FixedDivisionOperator | warn/warn.go:298-315 | The fix turns "/" into "//" and "/=" into "//=" and keeps everything else |
| WarnChecks.DivisionFixIdempotent | warn/warn.go:298-315 | A second run over fixed nodes reports nothing |
| WarnChecks.ParsedUpdateNotDivision | warn/warn.go:298-315 | A parsed `x /= 2` (AssignExpr) is never reported; a parsed `x / 2` is |
| WarnChecks.FirstConstant | warn/warn.go:90-116 | The first pattern with no '*' |
| WarnChecks.GlobCallFindings | warn/warn.go:92-114 | At most one finding per glob call |
| WarnChecks.ScanGlob | warn/warn.go:100-112 | The loop over patterns stops at the first constant one |
| WarnChecks.ConstantGlobWarning | warn/warn.go:90-116 | The findings of all glob calls in order, at most one per call |
| WarnChecks.GlobFindingIsFirstConstant | warn/warn.go:96-112 | The reported pattern has no '*' and every string pattern before it has one |
| WarnChecks.FirstPositional | warn/warn.go:71-88 | The first argument that is not a `=` BinaryExpr |
| WarnChecks.PositionalArgumentsWarning | warn/warn.go:71-88 | The result equals PositionalArgs of the statement |
| WarnChecks.PositionalFindingMeans | warn/warn.go:35-41 | A finding is for a call of a named function outside the exempt set, at an argument after only keyword ones |
| WarnChecks.KeywordCallNotFlagged | warn/warn.go:71-88 | A call whose arguments are all `=` BinaryExprs is never flagged |
| WarnChecks.ParsedKeywordArgFlagged | warn/warn.go:71-88 | A parsed `name = value` argument (AssignExpr) is flagged as positional |
| WarnFilter.CallArgCheck | warn/warn.go:688-702 | The loop over a rule's arguments equals CallArgDisables |
| WarnFilter.LoadCheck | warn/warn.go:704-721 | The checks on a load's module and each pair equal LoadDisables |
| WarnFilter.StmtCheck | warn/warn.go:680-721 | The loop body for one statement equals StmtDisables |
| WarnFilter.DisabledWarning | warn/warn.go:675-725 | True exactly when some top-level statement disables the warning on the finding's start line |
| WarnFilter.SameLineCommentDisables | warn/warn.go:675-725 | A statement on the finding's line carrying the disable comment disables it |
| WarnFilter.DisableFormat | warn/warn.go:676 | The disable comment is the prefix `buildozer: disable=` followed by exactly the warning name |
| WarnFilter.DisableFormatInjective | warn/warn.go:676 | Different warnings need different disable comments |
| WarnFilter.UnmentionedNotDisabled | warn/warn.go:675-725 | Without the disable comment anywhere, nothing is disabled |
| WarnFilter.Undisabled | warn/warn.go:732-736 | The findings kept are at most those given |
| WarnFilter.KeepUndisabled | warn/warn.go:732-736 | The inner loop appends exactly the findings no comment disables |
| WarnFilter.RuleFindings | warn/warn.go:745-751 | The rule-warning loop runs positionalArgumentsWarning on each top-level statement |
| WarnFilter.OneWarning | warn/warn.go:731-752 | One enabled warning appends its kept findings, or fails for an unknown name |
| WarnFilter.FileWarnings | warn/warn.go:728-755 | The result equals AllFindings over the enabled warnings |
| WarnFilter.UndisabledSound | warn/warn.go:731-751 | Every finding kept came from its check and is not disabled |
| WarnFilter.UndisabledComplete | warn/warn.go:731-751 | No finding that is not disabled is lost |
| WarnFilter.FindingsStep | warn/warn.go:730-752 | An unknown warning ends the run in failure; a known one appends its findings |
| WarnFilter.FailureSticks | warn/warn.go:730-752 | After the first failure the later warnings never run |
| WarnFilter.UnknownWarningFails | warn/warn.go:737-741 | Enabling a name neither map knows makes FileWarnings fail |
| WarnFilter.KnownWarningAppends | warn/warn.go:730-752 | A known warning adds its findings after those before it |
| WarnFilter.RuleWarningSkipsNonBuild | warn/warn.go:738-744 | A file that is not a BUILD file gets nothing from the rule warning |
| WarnOperation.DictionaryConcatenationWarning | warn/warn_operation.go:9-37 | The findings are the callback's, in visiting order |
| WarnOperation.DictConcatenationFlags | warn/warn_operation.go:9-37 | A node is flagged iff it is `+` with a Dict operand or `+=` with a Dict side, once, as itself |
| WarnOperation.DictOnlyPlus | warn/warn_operation.go:9-37 | Only `+` and `+=` nodes among those visited are ever flagged |
| WarnOperation.ZipCheck | warn/warn_operation.go:70-76 | The zip loop appends one finding per String argument |
| WarnOperation.StringCheck | warn/warn_operation.go:48-79 | The callback appends the findings of one node |
| WarnOperation.StringIterationWarning | warn/warn_operation.go:39-81 | The findings of all visited nodes, in order |
| WarnOperation.ZipReportsStrings | warn/warn_operation.go:70-76 | zip flags exactly its String arguments |
| WarnOperation.StringIterationCases | warn/warn_operation.go:48-79 | A String loop iterable, or the only String argument of all/any/reversed/max/min; nothing for other shapes |
| WarnOperation.IntegerDivisionWarning | warn/warn_operation.go:83-110 | The findings of the visited nodes in order; the nodes are not changed |
| WarnOperation.DivisionReplacement | warn/warn_operation.go:83-110 | Flagged iff a BinaryExpr "/" or an AssignExpr "/="; the replacement is a copy with "//" or "//=" and nothing else changed |
| WarnOperation.DivisionFindingsPerNode | warn/warn_operation.go:83-110 | One finding per division node, in order, each for exactly that node |
| WarnOperation.ReplacementNotReported | warn/warn_operation.go:83-110 | A replacement is not flagged again |
| WarnOperation.ParsedDivisionsReported | warn/warn_operation.go:83-110 | A parsed `x / 2` and a parsed `x /= 2` are both flagged |
| Diagnostics.MergePositive | buildifier/utils/diagnostics.go:74-80 | Every positive count is entered and every other entry kept |
| Diagnostics.FileDiagnostics.constructor | buildifier/utils/diagnostics.go:65-71 | The record holds the given fields |
| Diagnostics.FileDiagnostics.SetRewrites | buildifier/utils/diagnostics.go:74-80 | Rewrites becomes MergePositive of the old rewrites; nothing else changes |
| Diagnostics.MergePositiveIdempotent | buildifier/utils/diagnostics.go:74-80 | Entering the same categories twice changes nothing the second time |
| Diagnostics.MergePositiveKeeps | buildifier/utils/diagnostics.go:74-80 | A category with no positive count keeps its entry or stays absent |
| Diagnostics.MakePosition | buildifier/utils/diagnostics.go:150-155 | The report position keeps the line and the rune column; the byte offset is dropped |
| Diagnostics.NewFileDiagnostics | buildifier/utils/diagnostics.go:112-133 | Formatted and valid, no rewrites, one warning per finding in order with (Line, LineRune) positions |
| Diagnostics.InvalidFileDiagnostics | buildifier/utils/diagnostics.go:136-148 | Neither formatted nor valid, nothing recorded; "" becomes "<stdin>" |
| Diagnostics.NewDiagnostics | buildifier/utils/diagnostics.go:97-109 | Success iff every file is formatted and has no warnings |
| Diagnostics.ReformatCategories | buildifier/utils/diagnostics.go:37-45 | The categories with a positive count, strictly sorted |
| Diagnostics.ReformatText | buildifier/utils/diagnostics.go:36-48 | The rewrites loop, sort and join give the reformat line |
| Diagnostics.WarningText | buildifier/utils/diagnostics.go:24-35 | The warnings loop gives the warning lines |
| Diagnostics.AppendWarningLine | buildifier/utils/diagnostics.go:24-35 | One pass appends the line of warning k |
| Diagnostics.FileTextOf | buildifier/utils/diagnostics.go:23-49 | The text of one file: its warning lines, then the reformat line if unformatted |
| Diagnostics.AppendFileText | buildifier/utils/diagnostics.go:23-50 | One pass appends the text of file i |
| Diagnostics.TextFormat | buildifier/utils/diagnostics.go:21-51 | The text layout is each file's text in order |
| Diagnostics.Format | buildifier/utils/diagnostics.go:19-62 | The text layout for "text" and "", the JSON text and a newline for "json", "" for anything else |
| Diagnostics.WarningLineShape | buildifier/utils/diagnostics.go:25-34 | A warning line starts with the file name and ends with "(url)" iff actionable, "[url]" otherwise |
| Diagnostics.FileTextLines | buildifier/utils/diagnostics.go:23-49 | A formatted file gives just its warning lines, an unformatted one ends with its reformat line |
| Utils.Ext | buildifier/utils/utils.go:16 | The extension is empty or a '.'-started suffix with no other '.' or '/' |
| Utils.ExtOfSuffix | buildifier/utils/utils.go:16 | Such a suffix is the extension of any name it ends |
| Utils.IsStarlarkFile | buildifier/utils/utils.go:15-30 | Every .bzl or .sky name is a Starlark file, and a Starlark file's extension is .bzl, .sky, .bazel, .oss or none |
| Utils.StarlarkByExtension | buildifier/utils/utils.go:15-20 | Any name ending in .bzl or .sky is a Starlark file |
| Utils.StarlarkWithExtension | buildifier/utils/utils.go:21-29 | BUILD or WORKSPACE with .bazel or .oss is a Starlark file |
| Utils.StarlarkByName | buildifier/utils/utils.go:15-30 | The six BUILD and WORKSPACE names are Starlark files |
| Utils.StarlarkOnly | buildifier/utils/utils.go:15-30 | A Starlark file ends in .bzl or .sky or is one of the six names |
| Utils.IsStarlarkFileMeans | buildifier/utils/utils.go:15-30 | isStarlarkFile iff a .bzl or .sky suffix or one of the six names |
| Utils.StarlarkFileExamples | buildifier/utils/utils.go:15-30 | Instance, not a general property (see Utils.IsStarlarkFileMeans): BUILD.bazel, WORKSPACE.oss and defs.bzl are Starlark files |
| Utils.NonStarlarkExamples | buildifier/utils/utils.go:21-29 | Instance, not a general property (see Utils.IsStarlarkFileMeans): BUILD.bazel.oss, BUILD.txt and build are not |
| Utils.GetParser | buildifier/utils/utils.go:66-79 | The default parser exactly for names other than build, bzl, auto and workspace |
| Utils.GetParserInjective | buildifier/utils/utils.go:66-79 | Different named input types select different parsers |

## Left out

- The generated LR machinery of build/parse.y.go is not modelled: the tables, the `yyParse` driver, the lexer and the error messages. Each semantic action is a standalone function or method instead.
- `Span`, `Position.add`, `build.Walk`, `edit.EditFunction`, `edit.UsedSymbols`, `edit.ContainsComments`, `edit.ExprToRule`, `f.Rules` and `detectTypes` belong to files that are not part of this model. Their results are parameters:
  - a span function;
  - the walk-order sequence of visited nodes;
  - the list of glob calls;
  - the set of used names;
  - a comment predicate;
  - the rule list;
  - the type map.
- Nodes.SymbolPos: `Position.add` is modelled only for the newline-free quote strings it is applied to there.
- The JSON branch of `Format` uses `encoding/json`. Diagnostics.Format takes the two encodings as parameters and states only how it chooses between them.
- Go map iteration order in `SetRewrites` and `Format` is not modelled. SetRewrites states the map that results, which does not depend on the order. The rewrites loop of `Format` gathers the positive categories as a set and then sorts them, as the source does.
- `log.Fatalf` for an unknown warning name in `FileWarnings` is modelled as a `Failure` result.
- WarnFilter.FileWarnings: the fixes that the file-level checks apply between runs are not modelled. The file checks are a parameter `run` from names to their findings, so the model says nothing about the checks seeing each other's edits.
- The other checks of `FileWarningMap`, and the type-dependent checks of warn/warn.go (`dictionaryConcatenationWarning`, `stringIterationWarning`, `depsetUnionWarning`, `depsetIterationWarning`), are not modelled. The selectors of warn/warn_operation.go cover the type-directed logic.
- `unusedVariableWarning`, `unusedVariableCheck` and `MakeFix` are not modelled; they are not among the modelled checks.
- WarnChecks.IntegerDivisionWarning: the in-place assignment to `binary.Op` during the walk is modelled as the sequence of visited nodes with each division rewritten. Aliasing between visited nodes and the file tree is not captured.
- WarnOperation.DictionaryConcatenationWarning / WarnOperation.StringIterationWarning: the type map is keyed by node value rather than by node identity, so two equal nodes share a type.
- `makeLinterFinding` is not part of this model. A linter finding records only its node, message and replacement, not the positions it would compute.
- `PrintWarnings`, `FixWarnings`, `ExpandDirectories`, `GetPackageName` and `Lint` are not modelled. These do I/O on stderr and the file system, or call a warn interface whose signature is not part of this model.
- Finding messages are the strings the source builds. The `%d` of the duplicated-name message is Strings.IntToString, a decimal rendering proved to round-trip for non-negative numbers.
- MakeFinding: the `File` field of a finding is not modelled. A Finding records only its positions, category, message, URL, actionability and replacement; every use of findings receives the file they belong to separately.
- Warn.LoadsFixShape: `From` and `To` are stated to stay evenly paired only for loads that were evenly paired, as the parser builds them. The check itself only needs `From` to be at least as long as `To`.
