/**
 * The diagnostics report of buildifier/utils/diagnostics.go: per-file
 * records of warnings and formatting rewrites, the overall success flag,
 * and the plain-text layout of the report.
 */
module Diagnostics {
  import opened Syntax
  import opened Strings
  import Warn
  import Seqs

  /** position: a line and a column, the column being the rune offset in the line. */
  datatype DiagPosition = DiagPosition(line: int, column: int)

  /** makePosition keeps the line and the rune column and drops the byte offset. */
  function MakePosition(p: Position): (r: DiagPosition)
    ensures r.line == p.line && r.column == p.lineRune
  {
    DiagPosition(p.line, p.lineRune)
  }

  /** warning: one finding as the report shows it. */
  datatype Warning = Warning(start: DiagPosition, end: DiagPosition, category: string, actionable: bool,
                             message: string, url: string)

  /** The categories whose count is positive. */
  function PositiveKeys(m: map<string, int>): set<string>
  {
    set c | c in m && m[c] > 0
  }

  /** The rewrites after SetRewrites: every positive count of `categories` entered, every other entry kept. */
  function MergePositive(current: map<string, int>, categories: map<string, int>): (r: map<string, int>)
    ensures forall c :: c in r <==> c in current || c in PositiveKeys(categories)
    ensures forall c :: c in r ==> r[c] == if c in PositiveKeys(categories) then categories[c] else current[c]
  {
    current + map c | c in PositiveKeys(categories) :: categories[c]
  }

  /** FileDiagnostics: what the report says about one file. */
  class FileDiagnostics {
    var filename: string
    var formatted: bool
    var valid: bool
    var warnings: seq<Warning>
    var rewrites: map<string, int>

    constructor (filename: string, formatted: bool, valid: bool, warnings: seq<Warning>, rewrites: map<string, int>)
      ensures this.filename == filename && this.formatted == formatted && this.valid == valid
      ensures this.warnings == warnings && this.rewrites == rewrites
    {
      this.filename := filename;
      this.formatted := formatted;
      this.valid := valid;
      this.warnings := warnings;
      this.rewrites := rewrites;
    }

    /** SetRewrites: copies the categories with a positive count, in whatever order the map yields them. */
    method SetRewrites(categories: map<string, int>)
      modifies this
      ensures rewrites == MergePositive(old(rewrites), categories)
      ensures filename == old(filename) && formatted == old(formatted) && valid == old(valid) && warnings == old(warnings)
    {
      var left := categories.Keys;
      while left != {}
        invariant left <= categories.Keys
        invariant filename == old(filename) && formatted == old(formatted) && valid == old(valid) && warnings == old(warnings)
        invariant forall c :: c in rewrites <==> c in old(rewrites) || (c in PositiveKeys(categories) && c !in left)
        invariant forall c :: c in rewrites ==>
                    rewrites[c] == if c in PositiveKeys(categories) && c !in left then categories[c] else old(rewrites)[c]
        decreases |left|
      {
        var category :| category in left;
        var count := categories[category];
        if count > 0 {
          rewrites := rewrites[category := count];
        }
        left := left - {category};
      }
      ghost var merged := MergePositive(old(rewrites), categories);
      assert rewrites.Keys == merged.Keys;
    }
  }

  /** Entering the same categories twice changes nothing the second time. */
  lemma MergePositiveIdempotent(current: map<string, int>, categories: map<string, int>)
    ensures MergePositive(MergePositive(current, categories), categories) == MergePositive(current, categories)
  {
    var once := MergePositive(current, categories);
    var twice := MergePositive(once, categories);
    assert twice.Keys == once.Keys;
  }

  /** A category with no positive count keeps its old entry, or stays absent. */
  lemma MergePositiveKeeps(current: map<string, int>, categories: map<string, int>, c: string)
    requires c !in categories || categories[c] <= 0
    ensures c in MergePositive(current, categories) <==> c in current
    ensures c in current ==> MergePositive(current, categories)[c] == current[c]
  {
    assert c !in PositiveKeys(categories);
  }

  /** The warning of the report for a finding. */
  function ToWarning(w: Warn.Finding): Warning
  {
    Warning(MakePosition(w.start), MakePosition(w.end), w.category, w.actionable, w.message, w.url)
  }

  /** NewFileDiagnostics: a valid, formatted file with one warning per finding, in order. */
  method NewFileDiagnostics(filename: string, findings: seq<Warn.Finding>) returns (fd: FileDiagnostics)
    ensures fresh(fd) && fd.filename == filename && fd.formatted && fd.valid && fd.rewrites == map[]
    ensures |fd.warnings| == |findings|
    ensures forall i :: 0 <= i < |findings| ==>
              && fd.warnings[i].start == DiagPosition(findings[i].start.line, findings[i].start.lineRune)
              && fd.warnings[i].end == DiagPosition(findings[i].end.line, findings[i].end.lineRune)
              && fd.warnings[i].category == findings[i].category && fd.warnings[i].actionable == findings[i].actionable
              && fd.warnings[i].message == findings[i].message && fd.warnings[i].url == findings[i].url
  {
    var warnings: seq<Warning> := [];
    var i := 0;
    while i < |findings|
      invariant i <= |findings| && |warnings| == i
      invariant forall k :: 0 <= k < i ==> warnings[k] == ToWarning(findings[k])
    {
      warnings := warnings + [ToWarning(findings[i])];
      i := i + 1;
    }
    fd := new FileDiagnostics(filename, true, true, warnings, map[]);
  }

  /** InvalidFileDiagnostics: neither formatted nor valid, nothing else recorded; standard input is named "<stdin>". */
  method InvalidFileDiagnostics(filename: string) returns (fd: FileDiagnostics)
    ensures fresh(fd) && !fd.formatted && !fd.valid && fd.warnings == [] && fd.rewrites == map[]
    ensures fd.filename == if filename == "" then "<stdin>" else filename
    ensures fd.filename != ""
  {
    fd := new FileDiagnostics(filename, false, false, [], map[]);
    if filename == "" {
      fd.filename := "<stdin>";
    }
  }

  /** Diagnostics: the overall verdict and the per-file records. */
  datatype Diagnostics = Diagnostics(success: bool, files: seq<FileDiagnostics>)

  /** A file the report counts as clean: formatted and without warnings. */
  predicate Clean(f: FileDiagnostics)
    reads f
  {
    f.formatted && |f.warnings| == 0
  }

  /** NewDiagnostics: success exactly when every file is clean. */
  method NewDiagnostics(files: seq<FileDiagnostics>) returns (d: Diagnostics)
    ensures d.files == files
    ensures d.success <==> forall i :: 0 <= i < |files| ==> Clean(files[i])
  {
    d := Diagnostics(true, files);
    var i := 0;
    while i < |files|
      invariant i <= |files| && d == Diagnostics(true, files)
      invariant forall k :: 0 <= k < i ==> Clean(files[k])
    {
      var file := files[i];
      if !file.formatted || |file.warnings| > 0 {
        d := d.(success := false);
        break;
      }
      i := i + 1;
    }
  }

  // ---------------------------------------------------------------------------
  // the text format
  // ---------------------------------------------------------------------------

  /** One warning: `name:line: category: message (url)`, with [url] for a warning that is not actionable. */
  function WarningLine(filename: string, w: Warning): string
  {
    filename + ":" + IntToString(w.start.line) + ": " + w.category + ": " + w.message
    + (if w.actionable then " (" + w.url + ")" else " [" + w.url + "]") + "\n"
  }

  function WarningLines(filename: string, ws: seq<Warning>, j: nat): string
    requires j <= |ws|
    decreases j
  {
    if j == 0 then "" else WarningLines(filename, ws, j - 1) + WarningLine(filename, ws[j - 1])
  }

  /** The categories listed after `# reformat`: those with a positive count, sorted. */
  ghost function ReformatCategories(rewrites: map<string, int>): (cats: seq<string>)
    ensures StrictlySorted(cats)
    ensures forall c :: c in cats <==> c in rewrites && rewrites[c] > 0
  {
    SortedMembers(PositiveKeys(rewrites))
  }

  /** The line for a file that needs reformatting. */
  ghost function ReformatLine(filename: string, rewrites: map<string, int>): string
  {
    var cats := ReformatCategories(rewrites);
    filename + " # reformat" + (if cats == [] then "" else " " + Join(cats, " ")) + "\n"
  }

  /** The text for one file: its warnings, then the reformat line if it is not formatted. */
  ghost function FileContent(filename: string, warnings: seq<Warning>, formatted: bool, rewrites: map<string, int>): string
  {
    WarningLines(filename, warnings, |warnings|) + (if formatted then "" else ReformatLine(filename, rewrites))
  }

  ghost function FileText(f: FileDiagnostics): string
    reads f
  {
    FileContent(f.filename, f.warnings, f.formatted, f.rewrites)
  }

  /** The text for the first j files. */
  ghost function FormatText(files: seq<FileDiagnostics>, j: nat): string
    requires j <= |files|
    reads files
    decreases j
  {
    if j == 0 then "" else FormatText(files, j - 1) + FileText(files[j - 1])
  }

  /** The rewrites loop of Format: the positive categories, gathered from the map, then sorted and joined. */
  method ReformatText(filename: string, rewrites: map<string, int>) returns (line: string)
    ensures line == ReformatLine(filename, rewrites)
  {
    var positive: set<string> := {};
    var left := rewrites.Keys;
    while left != {}
      invariant left <= rewrites.Keys
      invariant positive == set c | c in rewrites.Keys - left && rewrites[c] > 0
      decreases |left|
    {
      var category :| category in left;
      if rewrites[category] > 0 {
        positive := positive + {category};
      }
      left := left - {category};
    }
    assert positive == PositiveKeys(rewrites);
    var sorted := SortSet(positive);
    var log := "";
    if |sorted| > 0 {
      log := " " + Join(sorted, " ");
    }
    line := filename + " # reformat" + log + "\n";
  }

  /** The warning lines of one file. */
  method WarningText(filename: string, ws: seq<Warning>) returns (out: string)
    ensures out == WarningLines(filename, ws, |ws|)
  {
    out := "";
    for k := 0 to |ws|
      invariant out == WarningLines(filename, ws, k)
    {
      out := AppendWarningLine(filename, ws, k, out);
    }
  }

  /** The pass of the warnings loop for the warning at index k. */
  method AppendWarningLine(filename: string, ws: seq<Warning>, k: nat, out0: string) returns (out: string)
    requires k < |ws| && out0 == WarningLines(filename, ws, k)
    ensures out == WarningLines(filename, ws, k + 1)
  {
    out := out0 + WarningLine(filename, ws[k]);
  }

  /** The lines Format writes for one file. */
  method FileTextOf(filename: string, warnings: seq<Warning>, formatted: bool, rewrites: map<string, int>) returns (text: string)
    ensures text == FileContent(filename, warnings, formatted, rewrites)
  {
    text := WarningText(filename, warnings);
    if !formatted {
      var line := ReformatText(filename, rewrites);
      text := text + line;
    } else {
      assert text + "" == text;
    }
  }

  lemma FormatTextStep(files: seq<FileDiagnostics>, i: nat)
    requires i < |files|
    ensures FormatText(files, i + 1) == FormatText(files, i) + FileText(files[i])
  {
  }

  /** The pass of Format's loop for the file at index i. */
  method AppendFileText(files: seq<FileDiagnostics>, i: nat, out0: string) returns (out: string)
    requires i < |files| && out0 == FormatText(files, i)
    ensures out == FormatText(files, i + 1)
  {
    var f := files[i];
    var text := FileTextOf(f.filename, f.warnings, f.formatted, f.rewrites);
    FormatTextStep(files, i);
    out := out0 + text;
  }

  /** The text layout: every file's lines, in the order of the files. */
  method TextFormat(files: seq<FileDiagnostics>) returns (out: string)
    ensures out == FormatText(files, |files|)
  {
    out := "";
    for i := 0 to |files|
      invariant out == FormatText(files, i)
    {
      out := AppendFileText(files, i, out);
    }
  }

  /**
   * Diagnostics.Format: the text layout for "text" and "", the JSON encoding
   * for "json" (json.Marshal and json.MarshalIndent are not part of this
   * model, so their results are parameters), and "" for anything else.
   */
  method Format(d: Diagnostics, format: string, verbose: bool, compactJson: string, indentedJson: string) returns (out: string)
    ensures format == "text" || format == "" ==> out == FormatText(d.files, |d.files|)
    ensures format == "json" ==> out == (if verbose then indentedJson else compactJson) + "\n"
    ensures format != "text" && format != "" && format != "json" ==> out == ""
  {
    if format == "text" || format == "" {
      out := TextFormat(d.files);
      return;
    }
    if format == "json" {
      var result := if verbose then indentedJson else compactJson;
      return result + "\n";
    }
    return "";
  }

  /** A warning line names the file first and ends with the URL in parentheses exactly when the warning is actionable. */
  lemma WarningLineShape(filename: string, w: Warning)
    ensures var line := WarningLine(filename, w);
      && line[..|filename|] == filename && line[|filename|] == ':'
      && (w.actionable ==> HasSuffix(line, " (" + w.url + ")\n"))
      && (!w.actionable ==> HasSuffix(line, " [" + w.url + "]\n"))
  {
    var tail := if w.actionable then " (" + w.url + ")\n" else " [" + w.url + "]\n";
    var head := filename + ":" + IntToString(w.start.line) + ": " + w.category + ": " + w.message;
    assert WarningLine(filename, w) == head + tail;
    assert (head + tail)[|head + tail| - |tail|..] == tail;
  }

  /** A formatted file contributes exactly its warning lines, an unformatted one a reformat line after them. */
  lemma FileTextLines(f: FileDiagnostics)
    ensures f.formatted ==> FileText(f) == WarningLines(f.filename, f.warnings, |f.warnings|)
    ensures !f.formatted ==> HasSuffix(FileText(f), ReformatLine(f.filename, f.rewrites))
  {
    if !f.formatted {
      var a, b := WarningLines(f.filename, f.warnings, |f.warnings|), ReformatLine(f.filename, f.rewrites);
      assert (a + b)[|a + b| - |b|..] == b;
    }
  }

  /** A file with no positive rewrite gets a bare `name # reformat` line. */
  lemma ReformatWithoutCategories(filename: string, rewrites: map<string, int>)
    requires forall c :: c in rewrites ==> rewrites[c] <= 0
    ensures ReformatLine(filename, rewrites) == filename + " # reformat\n"
  {
  }
}
