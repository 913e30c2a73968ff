/**
 * File classification in buildifier/utils/utils.go: which file names are
 * Starlark files, and which parser an input type selects.
 */
module Utils {
  import opened Strings

  /** filepath.Ext: the suffix from the last '.' of the last path element, or "" when that element has none. */
  function Ext(name: string): (ext: string)
    ensures ext == "" || (ext[0] == '.' && HasSuffix(name, ext))
    ensures forall i :: 0 < i < |ext| ==> ext[i] != '.' && ext[i] != '/'
    decreases |name|
  {
    if name == [] || name[|name| - 1] == '/' then ""
    else if name[|name| - 1] == '.' then "."
    else
      var e := Ext(name[..|name| - 1]);
      if e == "" then "" else e + [name[|name| - 1]]
  }

  /** isStarlarkFile: a .bzl or .sky file, or BUILD or WORKSPACE once a trailing .bazel or .oss is dropped. */
  function IsStarlarkFile(name: string): (r: bool)
    ensures Ext(name) == ".bzl" || Ext(name) == ".sky" ==> r
    ensures r ==> Ext(name) in {".bzl", ".sky", ".bazel", ".oss", ""}
  {
    var ext := Ext(name);
    if ext == ".bzl" || ext == ".sky" then true
    else
      var base := name[..|name| - |ext|];
      var stripped := if ext == ".bazel" || ext == ".oss" then base else name;
      stripped == "BUILD" || stripped == "WORKSPACE"
  }

  /** The whole names that are Starlark files without a .bzl or .sky extension. */
  const BuildFileNames: set<string> := {"BUILD", "WORKSPACE", "BUILD.bazel", "BUILD.oss", "WORKSPACE.bazel", "WORKSPACE.oss"}

  /** A suffix that starts with '.' and has no other '.' and no '/' is the extension of any name it ends. */
  lemma {:induction false} ExtOfSuffix(base: string, ext: string)
    requires |ext| > 0 && ext[0] == '.'
    requires forall i :: 0 < i < |ext| ==> ext[i] != '.' && ext[i] != '/'
    ensures Ext(base + ext) == ext
    decreases |ext|
  {
    var n := base + ext;
    if |ext| > 1 {
      var init := ext[..|ext| - 1];
      ExtOfSuffix(base, init);
      assert n[..|n| - 1] == base + init;
      assert init + [ext[|ext| - 1]] == ext;
    } else {
      assert n[|n| - 1] == '.';
    }
  }

  /** A name without '.' has no extension. */
  lemma {:induction false} NoDotNoExt(name: string)
    requires forall i :: 0 <= i < |name| ==> name[i] != '.'
    ensures Ext(name) == ""
    decreases |name|
  {
    if name != [] && name[|name| - 1] != '/' {
      NoDotNoExt(name[..|name| - 1]);
    }
  }

  lemma SuffixSplit(name: string, ext: string)
    requires HasSuffix(name, ext)
    ensures name == name[..|name| - |ext|] + ext
  {
  }

  /** Any name ending in .bzl or .sky is a Starlark file. */
  lemma StarlarkByExtension(name: string)
    requires HasSuffix(name, ".bzl") || HasSuffix(name, ".sky")
    ensures IsStarlarkFile(name)
  {
    var ext := name[|name| - 4..];
    SuffixSplit(name, ext);
    ExtOfSuffix(name[..|name| - 4], ext);
  }

  /** BUILD or WORKSPACE with a .bazel or .oss extension is a Starlark file. */
  lemma StarlarkWithExtension(base: string, ext: string)
    requires base == "BUILD" || base == "WORKSPACE"
    requires ext == ".bazel" || ext == ".oss"
    ensures IsStarlarkFile(base + ext)
  {
    ExtOfSuffix(base, ext);
    assert (base + ext)[..|base + ext| - |ext|] == base;
  }

  /** The six BUILD and WORKSPACE names are Starlark files. */
  lemma StarlarkByName(name: string)
    requires name in BuildFileNames
    ensures IsStarlarkFile(name)
  {
    if name == "BUILD" || name == "WORKSPACE" {
      NoDotNoExt(name);
    } else if name == "BUILD.bazel" || name == "BUILD.oss" {
      var ext := if name == "BUILD.bazel" then ".bazel" else ".oss";
      assert name == "BUILD" + ext;
      StarlarkWithExtension("BUILD", ext);
    } else {
      var ext := if name == "WORKSPACE.bazel" then ".bazel" else ".oss";
      assert name == "WORKSPACE" + ext;
      StarlarkWithExtension("WORKSPACE", ext);
    }
  }

  /** And nothing else is. */
  lemma StarlarkOnly(name: string)
    requires IsStarlarkFile(name)
    ensures HasSuffix(name, ".bzl") || HasSuffix(name, ".sky") || name in BuildFileNames
  {
    var ext := Ext(name);
    if ext == ".bazel" || ext == ".oss" {
      StrippedBuildName(name, ext);
    }
  }

  /** A BUILD or WORKSPACE name with one .bazel or .oss extension is one of the six names. */
  lemma StrippedBuildName(name: string, ext: string)
    requires ext == ".bazel" || ext == ".oss"
    requires HasSuffix(name, ext)
    requires name[..|name| - |ext|] == "BUILD" || name[..|name| - |ext|] == "WORKSPACE"
    ensures name in BuildFileNames
  {
    SuffixSplit(name, ext);
    var base := name[..|name| - |ext|];
    if base == "BUILD" {
      assert "BUILD" + ".bazel" == "BUILD.bazel" && "BUILD" + ".oss" == "BUILD.oss";
    } else {
      assert "WORKSPACE" + ".bazel" == "WORKSPACE.bazel" && "WORKSPACE" + ".oss" == "WORKSPACE.oss";
    }
  }

  /**
   * Without reference to Ext: a name is a Starlark file exactly when it ends
   * in .bzl or .sky or is one of the six BUILD and WORKSPACE names.
   */
  lemma IsStarlarkFileMeans(name: string)
    ensures IsStarlarkFile(name) <==> HasSuffix(name, ".bzl") || HasSuffix(name, ".sky") || name in BuildFileNames
  {
    if IsStarlarkFile(name) {
      StarlarkOnly(name);
    } else if HasSuffix(name, ".bzl") || HasSuffix(name, ".sky") {
      StarlarkByExtension(name);
    } else if name in BuildFileNames {
      StarlarkByName(name);
    }
  }

  /** The BUILD and WORKSPACE names with one extension dropped, and a .bzl file, are Starlark files. */
  lemma StarlarkFileExamples()
    ensures IsStarlarkFile("BUILD.bazel") && IsStarlarkFile("WORKSPACE.oss") && IsStarlarkFile("defs.bzl")
  {
    StarlarkByName("BUILD.bazel");
    StarlarkByName("WORKSPACE.oss");
    StarlarkByExtension("defs.bzl");
  }

  /** Only one trailing extension is dropped, other extensions are not dropped, and names are case-sensitive. */
  lemma NonStarlarkExamples()
    ensures !IsStarlarkFile("BUILD.bazel.oss") && !IsStarlarkFile("BUILD.txt") && !IsStarlarkFile("build")
  {
    ExtOfSuffix("BUILD.bazel", ".oss");
    assert "BUILD.bazel" + ".oss" == "BUILD.bazel.oss";
    ExtOfSuffix("BUILD", ".txt");
    assert "BUILD" + ".txt" == "BUILD.txt";
    NoDotNoExt("build");
  }

  /** The parsers GetParser can return. */
  datatype Parser = ParseBuild | ParseBzl | ParseAuto | ParseWorkspace | ParseDefault

  /** GetParser: the four named input types select their parser, anything else the default one. */
  function GetParser(inputType: string): (p: Parser)
    ensures p == ParseDefault <==> inputType !in {"build", "bzl", "auto", "workspace"}
  {
    match inputType
    case "build" => ParseBuild
    case "bzl" => ParseBzl
    case "auto" => ParseAuto
    case "workspace" => ParseWorkspace
    case _ => ParseDefault
  }

  /** Different named input types select different parsers. */
  lemma GetParserInjective(a: string, b: string)
    requires GetParser(a) == GetParser(b) != ParseDefault
    ensures a == b
  {
  }
}
