/**
 * The project-dump script: it walks the working directory top-down,
 * prunes ignored directories before descending, keeps the code files that
 * pass the skip rule, and writes each one between a START and an END rule
 * under a header naming the root.
 */
module Extract {
  import opened Wrappers
  import opened Strings

  /* ---------------- the filter ---------------- */

  /** The dump file the script writes. */
  const OutputFilename: string := "project_code.txt"

  /** The script's own name, which it leaves out of the dump. */
  const ScriptFilename: string := "extract.py"

  /** Directories never descended into (a set in the script; listed here in its order). */
  const IgnoreDirs: seq<string> := [
    "node_modules", ".next", "__pycache__", ".git", ".vscode", ".idea",
    "venv", "env", ".DS_Store", "dist", "build", "coverage"
  ]

  /** Files never written: lock files, binaries and secrets. */
  const IgnoreFiles: seq<string> := [
    "package-lock.json", "yarn.lock", "pnpm-lock.yaml",
    ".DS_Store", "favicon.ico", ".env", ".env.local"
  ]

  /** Python's `x in names`, one name at a time. */
  predicate Listed(x: string, names: seq<string>)
  {
    names != [] && (names[0] == x || Listed(x, names[1..]))
  }

  lemma {:induction false} ListedIff(x: string, names: seq<string>)
    ensures Listed(x, names) <==> x in names
  {
    if names != [] {
      ListedIff(x, names[1..]);
      assert names == [names[0]] + names[1..];
    }
  }

  /** Name endings that mark a code or text file (a set in the script; listed here in its order). */
  const ValidExtensions: seq<string> := [
    ".py", ".tsx", ".ts", ".js", ".json", ".css", ".html",
    ".txt", ".md", ".yml", ".yaml", "Dockerfile", "requirements.txt"
  ]

  /** Python's `str.endswith`. */
  predicate EndsWith(s: string, suffix: string)
  {
    |suffix| <= |s| && s[|s| - |suffix|..] == suffix
  }

  /** `any(filename.endswith(ext) for ext in exts)`. */
  predicate EndsWithAny(name: string, exts: seq<string>)
  {
    exts != [] && (EndsWith(name, exts[0]) || EndsWithAny(name, exts[1..]))
  }

  lemma {:induction false} EndsWithAnyIff(name: string, exts: seq<string>)
    ensures EndsWithAny(name, exts) <==> exists i :: 0 <= i < |exts| && EndsWith(name, exts[i])
  {
    if exts != [] {
      EndsWithAnyIff(name, exts[1..]);
      assert forall i :: 1 <= i < |exts| ==> exts[i] == exts[1..][i - 1];
      if EndsWithAny(name, exts[1..]) {
        var i :| 0 <= i < |exts[1..]| && EndsWith(name, exts[1..][i]);
        assert EndsWith(name, exts[i + 1]);
      }
    }
  }

  /** `is_text_file`: some listed ending, or one of the two bare build-file names. */
  predicate IsTextFile(name: string)
  {
    EndsWithAny(name, ValidExtensions) || name == "Dockerfile" || name == "Makefile"
  }

  lemma {:induction false} EndsWithAnyConcat(name: string, a: seq<string>, b: seq<string>)
    ensures EndsWithAny(name, a + b) <==> EndsWithAny(name, a) || EndsWithAny(name, b)
  {
    if a != [] {
      assert (a + b)[0] == a[0] && (a + b)[1..] == a[1..] + b;
      EndsWithAnyConcat(name, a[1..], b);
    } else {
      assert a + b == b;
    }
  }

  lemma RequirementsEndsInTxt(name: string)
    requires EndsWith(name, "requirements.txt")
    ensures EndsWith(name, ".txt")
  {
    var n := |name|;
    assert name[n - 4..] == name[n - 16..][12..];
  }

  /**
   * Two entries of the table are redundant: every name ending in
   * `requirements.txt` ends in `.txt`, and the bare `Dockerfile` already ends
   * in the `Dockerfile` entry. What decides is the first twelve endings and
   * the exact name `Makefile`.
   */
  lemma IsTextFileReduced(name: string)
    ensures IsTextFile(name) <==> EndsWithAny(name, ValidExtensions[..12]) || name == "Makefile"
  {
    var first := ValidExtensions[..12];
    assert ValidExtensions == first + ["requirements.txt"];
    EndsWithAnyConcat(name, first, ["requirements.txt"]);
    assert ["requirements.txt"][1..] == [];
    EndsWithAnyIff(name, first);
    if EndsWith(name, "requirements.txt") {
      RequirementsEndsInTxt(name);
      assert first[7] == ".txt";
    }
    if name == "Dockerfile" {
      assert first[11] == "Dockerfile";
      assert EndsWith(name, first[11]);
    }
  }

  /** The per-file skip rule: not ignored, a text file, and neither the dump nor the script. */
  predicate ShouldWrite(name: string)
  {
    !Listed(name, IgnoreFiles) && IsTextFile(name) && name != OutputFilename && name != ScriptFilename
  }

  /**
   * The skip rule as the loop applies it: a file is written exactly when it
   * is not an ignored file, is a text file, and is neither the dump nor the
   * script itself.
   */
  lemma ShouldWriteIff(name: string)
    ensures ShouldWrite(name) <==>
      name !in IgnoreFiles && IsTextFile(name) && name != "project_code.txt" && name != "extract.py"
  {
    ListedIff(name, IgnoreFiles);
  }

  /** The lock file passes as a text file by its `.json` ending and is still left out. */
  lemma LockFileIsSkipped()
    ensures IsTextFile("package-lock.json") && !ShouldWrite("package-lock.json")
  {
    assert EndsWith("package-lock.json", ValidExtensions[4]);
    EndsWithAnyIff("package-lock.json", ValidExtensions);
  }

  /** The secrets files are left out. */
  lemma SecretsAreSkipped()
    ensures !ShouldWrite(".env") && !ShouldWrite(".env.local")
  {
    assert IgnoreFiles[5] == ".env" && IgnoreFiles[6] == ".env.local";
    ListedIff(".env", IgnoreFiles);
    ListedIff(".env.local", IgnoreFiles);
  }

  /** The script never dumps its own output or itself, though both are text files. */
  lemma ScriptSkipsItself()
    ensures IsTextFile(OutputFilename) && !ShouldWrite(OutputFilename)
    ensures IsTextFile(ScriptFilename) && !ShouldWrite(ScriptFilename)
  {
    assert EndsWith(OutputFilename, ValidExtensions[7]);
    assert EndsWith(ScriptFilename, ValidExtensions[0]);
    EndsWithAnyIff(OutputFilename, ValidExtensions);
    EndsWithAnyIff(ScriptFilename, ValidExtensions);
  }

  /** A TypeScript page is written. */
  lemma TsxSourceIsWritten()
    ensures ShouldWrite("page.tsx")
  {
    assert EndsWith("page.tsx", ValidExtensions[1]);
    EndsWithAnyIff("page.tsx", ValidExtensions);
    ListedIff("page.tsx", IgnoreFiles);
  }

  /** A Python module is written. */
  lemma PythonSourceIsWritten()
    ensures ShouldWrite("main.py")
  {
    assert EndsWith("main.py", ValidExtensions[0]);
    EndsWithAnyIff("main.py", ValidExtensions);
    ListedIff("main.py", IgnoreFiles);
  }

  /** The two build files without an extension are written. */
  lemma BuildFilesAreWritten()
    ensures ShouldWrite("Dockerfile") && ShouldWrite("Makefile")
  {
    ListedIff("Dockerfile", IgnoreFiles);
    ListedIff("Makefile", IgnoreFiles);
  }

  /* ---------------- the tree the walk visits ---------------- */

  /** A file found by the walk; its content is None when opening or decoding it fails. */
  datatype FileEntry = FileEntry(name: string, content: Option<string>)

  /** A directory: its own files and its subdirectories, in listing order. */
  datatype Dir = Dir(name: string, files: seq<FileEntry>, subdirs: seq<Dir>)

  function Size(d: Dir): (r: nat)
    ensures r >= 1
  {
    1 + SizeAll(d.subdirs)
  }

  function SizeAll(ds: seq<Dir>): nat
  {
    if ds == [] then 0 else Size(ds[0]) + SizeAll(ds[1..])
  }

  /** `dirs[:] = [d for d in dirs if d not in ignore_dirs]`. */
  function Prune(dirs: seq<Dir>): (r: seq<Dir>)
    ensures |r| <= |dirs|
    ensures forall d :: d in r <==> d in dirs && !Listed(d.name, IgnoreDirs)
  {
    if dirs == [] then []
    else if Listed(dirs[0].name, IgnoreDirs) then Prune(dirs[1..])
    else [dirs[0]] + Prune(dirs[1..])
  }

  lemma {:induction false} PruneShrinks(dirs: seq<Dir>)
    ensures SizeAll(Prune(dirs)) <= SizeAll(dirs)
  {
    if dirs != [] {
      PruneShrinks(dirs[1..]);
      if !Listed(dirs[0].name, IgnoreDirs) {
        assert ([dirs[0]] + Prune(dirs[1..]))[1..] == Prune(dirs[1..]);
      }
    }
  }

  lemma {:induction false} SizeAllConcat(a: seq<Dir>, b: seq<Dir>)
    ensures SizeAll(a + b) == SizeAll(a) + SizeAll(b)
  {
    if a != [] {
      assert (a + b)[0] == a[0] && (a + b)[1..] == a[1..] + b;
      SizeAllConcat(a[1..], b);
    } else {
      assert a + b == b;
    }
  }

  /** Pruning keeps order: it distributes over concatenation, so a kept directory keeps its place among the kept ones. */
  lemma {:induction false} PruneConcat(a: seq<Dir>, b: seq<Dir>)
    ensures Prune(a + b) == Prune(a) + Prune(b)
  {
    if a != [] {
      var x, tail := a[0], a[1..];
      assert (a + b)[0] == x && (a + b)[1..] == tail + b;
      PruneConcat(tail, b);
      if Listed(x.name, IgnoreDirs) {
        assert Prune(a + b) == Prune(tail + b);
        assert Prune(a) == Prune(tail);
      } else {
        assert Prune(a + b) == [x] + (Prune(tail) + Prune(b));
        assert Prune(a) == [x] + Prune(tail);
      }
    } else {
      assert a + b == b;
    }
  }

  /** Pruning a single directory keeps it exactly when its name is not ignored. */
  lemma PruneOne(d: Dir)
    ensures Prune([d]) == if Listed(d.name, IgnoreDirs) then [] else [d]
  {
    assert [d][1..] == [];
  }

  /* ---------------- the walk and the dump, as values ---------------- */

  /** A file as the walk meets it: the directory names leading to it from the root, and the file. */
  datatype Visit = Visit(dirs: seq<string>, file: FileEntry)

  /** `os.path.relpath(os.path.join(root, file), cwd)` with `/` as separator. */
  function RelPath(dirs: seq<string>, name: string): string
  {
    if dirs == [] then name else dirs[0] + "/" + RelPath(dirs[1..], name)
  }

  function FileVisits(files: seq<FileEntry>, path: seq<string>): (r: seq<Visit>)
    ensures |r| == |files|
    ensures forall i :: 0 <= i < |files| ==> r[i] == Visit(path, files[i])
  {
    seq(|files|, i requires 0 <= i < |files| => Visit(path, files[i]))
  }

  /** `os.walk` top-down: a directory's own files, then each kept subdirectory in turn. */
  function Visits(d: Dir, path: seq<string>): seq<Visit>
    decreases Size(d), 0
  {
    PruneShrinks(d.subdirs);
    FileVisits(d.files, path) + ForestVisits(Prune(d.subdirs), path)
  }

  function ForestVisits(ds: seq<Dir>, path: seq<string>): seq<Visit>
    decreases SizeAll(ds), 1
  {
    if ds == [] then [] else Visits(ds[0], path + [ds[0].name]) + ForestVisits(ds[1..], path)
  }

  const TenRule: string := "=========="

  /** `"=" * 20`. */
  const ShortRule: string := TenRule + TenRule

  /** `"=" * 50`. */
  const LongRule: string := ShortRule + ShortRule + TenRule

  /** Every character of `s` is `c`. */
  predicate Uniform(s: string, c: char)
  {
    s == [] || (s[0] == c && Uniform(s[1..], c))
  }

  lemma {:induction false} UniformAt(s: string, c: char)
    requires Uniform(s, c)
    ensures forall i :: 0 <= i < |s| ==> s[i] == c
  {
    if s != [] {
      UniformAt(s[1..], c);
      assert forall i :: 1 <= i < |s| ==> s[i] == s[1..][i - 1];
    }
  }

  lemma {:induction false} UniformConcat(a: string, b: string, c: char)
    requires Uniform(a, c) && Uniform(b, c)
    ensures Uniform(a + b, c)
  {
    if a != [] {
      assert (a + b)[1..] == a[1..] + b;
      UniformConcat(a[1..], b, c);
    } else {
      assert a + b == b;
    }
  }

  /** The two rules are fifty and twenty `=` signs. */
  lemma RuleWidths()
    ensures |LongRule| == 50 && forall i :: 0 <= i < |LongRule| ==> LongRule[i] == '='
    ensures |ShortRule| == 20 && forall i :: 0 <= i < |ShortRule| ==> ShortRule[i] == '='
  {
    assert Uniform(TenRule, '=');
    UniformConcat(TenRule, TenRule, '=');
    UniformConcat(ShortRule, ShortRule, '=');
    UniformConcat(ShortRule + ShortRule, TenRule, '=');
    UniformAt(LongRule, '=');
    UniformAt(ShortRule, '=');
  }

  /** The header: the root, then a rule of fifty `=` and a blank line. */
  function Header(cwd: string): string
  {
    Concat(["Project Root: ", cwd, "\n", LongRule, "\n\n"])
  }

  function StartLine(rel: string): string
  {
    Concat(["\n", ShortRule, " START: ", rel, " ", ShortRule, "\n"])
  }

  function EndLine(rel: string): string
  {
    Concat(["\n", ShortRule, " END: ", rel, " ", ShortRule, "\n\n"])
  }

  /** One written file, in three writes: a START rule, the content unchanged, an END rule. */
  function Block(rel: string, content: string): string
  {
    Concat([StartLine(rel), content, EndLine(rel)])
  }

  /** Reads the content back out of a block for the given path. */
  function Unframe(rel: string, text: string): (r: Option<string>)
    ensures r.Some? ==> |r.value| <= |text|
  {
    var s, e := StartLine(rel), EndLine(rel);
    if |s| + |e| <= |text| && text[..|s|] == s && text[|text| - |e|..] == e
    then Some(text[|s|..|text| - |e|])
    else None
  }

  /** The framing loses nothing: the content comes back out of its block, whatever it holds. */
  lemma UnframeBlock(rel: string, content: string)
    ensures Unframe(rel, Block(rel, content)) == Some(content)
  {
    var s, e, b := StartLine(rel), EndLine(rel), Block(rel, content);
    ConcatThree(s, content, e);
    assert b[..|s|] == s;
    assert b[|b| - |e|..] == e;
    assert b[|s|..|b| - |e|] == content;
  }

  /** A file as it is written: its relative path and its content. */
  datatype Entry = Entry(rel: string, content: string)

  /** The visited files that pass the skip rule `keep` and can be read, in visit order. */
  function Kept(vs: seq<Visit>, keep: string -> bool): (r: seq<Entry>)
    ensures |r| <= |vs|
  {
    if vs == [] then []
    else if keep(vs[0].file.name) && vs[0].file.content.Some?
    then [Entry(RelPath(vs[0].dirs, vs[0].file.name), vs[0].file.content.value)] + Kept(vs[1..], keep)
    else Kept(vs[1..], keep)
  }

  /** The written entries, each in its block, one after the other. */
  function Framed(es: seq<Entry>): string
  {
    if es == [] then "" else Block(es[0].rel, es[0].content) + Framed(es[1..])
  }

  /** The whole dump of the tree rooted at the working directory. */
  function Dump(cwd: string, root: Dir): string
  {
    Header(cwd) + Framed(Kept(Visits(root, []), ShouldWrite))
  }

  lemma {:induction false} KeptConcat(a: seq<Visit>, b: seq<Visit>, keep: string -> bool)
    ensures Kept(a + b, keep) == Kept(a, keep) + Kept(b, keep)
  {
    if a != [] {
      assert (a + b)[0] == a[0] && (a + b)[1..] == a[1..] + b;
      KeptConcat(a[1..], b, keep);
    } else {
      assert a + b == b;
    }
  }

  lemma {:induction false} FramedConcat(a: seq<Entry>, b: seq<Entry>)
    ensures Framed(a + b) == Framed(a) + Framed(b)
  {
    if a != [] {
      assert (a + b)[0] == a[0] && (a + b)[1..] == a[1..] + b;
      FramedConcat(a[1..], b);
    } else {
      assert a + b == b;
    }
  }

  /** What one visited file contributes. */
  lemma KeptOne(v: Visit, keep: string -> bool)
    ensures Kept([v], keep) ==
      if keep(v.file.name) && v.file.content.Some?
      then [Entry(RelPath(v.dirs, v.file.name), v.file.content.value)]
      else []
  {
    assert [v][1..] == [];
  }

  /** A file that cannot be read adds nothing and the files around it are written as before. */
  lemma ReadFailureIsSkipped(before: seq<Visit>, failed: Visit, after: seq<Visit>)
    requires failed.file.content == None
    ensures Kept(before + [failed] + after, ShouldWrite) == Kept(before, ShouldWrite) + Kept(after, ShouldWrite)
  {
    KeptConcat(before + [failed], after, ShouldWrite);
    KeptConcat(before, [failed], ShouldWrite);
    KeptOne(failed, ShouldWrite);
  }

  /** `e` is the entry written for the visit `v`. */
  predicate WrittenAs(v: Visit, e: Entry)
  {
    ShouldWrite(v.file.name) && v.file.content == Some(e.content) && e.rel == RelPath(v.dirs, v.file.name)
  }

  /**
   * The entries written are exactly the visited files that pass the rule
   * and can be read: each written entry comes from such a visit, and each
   * such visit is written.
   */
  lemma {:induction false} KeptExactly(vs: seq<Visit>)
    ensures forall e :: e in Kept(vs, ShouldWrite) ==> exists i :: 0 <= i < |vs| && WrittenAs(vs[i], e)
    ensures forall i :: 0 <= i < |vs| && ShouldWrite(vs[i].file.name) && vs[i].file.content.Some? ==>
      Entry(RelPath(vs[i].dirs, vs[i].file.name), vs[i].file.content.value) in Kept(vs, ShouldWrite)
  {
    if vs != [] {
      KeptExactly(vs[1..]);
      assert forall i :: 1 <= i < |vs| ==> vs[i] == vs[1..][i - 1];
      forall e | e in Kept(vs, ShouldWrite) ensures exists i :: 0 <= i < |vs| && WrittenAs(vs[i], e)
      {
        if e !in Kept(vs[1..], ShouldWrite) {
          assert WrittenAs(vs[0], e);
        } else {
          var i :| 0 <= i < |vs[1..]| && WrittenAs(vs[1..][i], e);
          assert WrittenAs(vs[i + 1], e);
        }
      }
    }
  }

  lemma FramedOne(es: seq<Entry>)
    requires |es| <= 1
    ensures Framed(es) == if es == [] then "" else Block(es[0].rel, es[0].content)
  {
    if es != [] {
      assert es[1..] == [];
    }
  }

  /** Every written entry gets a block of its own: the dump adds nothing after the header exactly when nothing is written. */
  lemma FramedEmptyIff(es: seq<Entry>)
    ensures Framed(es) == "" <==> es == []
  {
    if es != [] {
      var s := Concat(["\n", ShortRule, " START: ", es[0].rel, " ", ShortRule, "\n"]);
      assert s == "\n" + Concat([ShortRule, " START: ", es[0].rel, " ", ShortRule, "\n"]);
      ConcatThree(s, es[0].content, EndLine(es[0].rel));
    }
  }

  /** Every file the walk reaches lies below kept directories only, whatever the ignored trees contain. */
  lemma {:induction false} VisitsAvoidIgnored(d: Dir, path: seq<string>)
    requires forall k :: 0 <= k < |path| ==> !Listed(path[k], IgnoreDirs)
    ensures forall v :: v in Visits(d, path) ==> forall k :: 0 <= k < |v.dirs| ==> !Listed(v.dirs[k], IgnoreDirs)
    decreases Size(d), 0
  {
    PruneShrinks(d.subdirs);
    ForestAvoidsIgnored(Prune(d.subdirs), path);
  }

  lemma {:induction false} ForestAvoidsIgnored(ds: seq<Dir>, path: seq<string>)
    requires forall k :: 0 <= k < |path| ==> !Listed(path[k], IgnoreDirs)
    requires forall i :: 0 <= i < |ds| ==> !Listed(ds[i].name, IgnoreDirs)
    ensures forall v :: v in ForestVisits(ds, path) ==> forall k :: 0 <= k < |v.dirs| ==> !Listed(v.dirs[k], IgnoreDirs)
    decreases SizeAll(ds), 1
  {
    if ds != [] {
      VisitsAvoidIgnored(ds[0], path + [ds[0].name]);
      ForestAvoidsIgnored(ds[1..], path);
    }
  }

  /* ---------------- the script ---------------- */

  /** Directories still to walk, each with its path from the root, next one first. */
  function PendingVisits(pending: seq<(Dir, seq<string>)>): seq<Visit>
    decreases pending
  {
    if pending == [] then [] else Visits(pending[0].0, pending[0].1) + PendingVisits(pending[1..])
  }

  function PendingSize(pending: seq<(Dir, seq<string>)>): nat
  {
    if pending == [] then 0 else Size(pending[0].0) + PendingSize(pending[1..])
  }

  /** The kept subdirectories of a directory at `path`, each with its own path. */
  function Children(dirs: seq<Dir>, path: seq<string>): (r: seq<(Dir, seq<string>)>)
    ensures |r| == |dirs|
    ensures forall i :: 0 <= i < |dirs| ==> r[i] == (dirs[i], path + [dirs[i].name])
  {
    seq(|dirs|, i requires 0 <= i < |dirs| => (dirs[i], path + [dirs[i].name]))
  }

  lemma {:induction false} PendingConcat(a: seq<(Dir, seq<string>)>, b: seq<(Dir, seq<string>)>)
    ensures PendingVisits(a + b) == PendingVisits(a) + PendingVisits(b)
    ensures PendingSize(a + b) == PendingSize(a) + PendingSize(b)
  {
    if a != [] {
      assert (a + b)[0] == a[0] && (a + b)[1..] == a[1..] + b;
      PendingConcat(a[1..], b);
    } else {
      assert a + b == b;
    }
  }

  lemma {:induction false} ChildrenVisits(dirs: seq<Dir>, path: seq<string>)
    ensures PendingVisits(Children(dirs, path)) == ForestVisits(dirs, path)
    ensures PendingSize(Children(dirs, path)) == SizeAll(dirs)
  {
    if dirs != [] {
      assert Children(dirs, path)[1..] == Children(dirs[1..], path);
      ChildrenVisits(dirs[1..], path);
    }
  }

  /** Taking the next directory off the list: its own files, then its kept children ahead of the rest. */
  lemma PendingStep(d: Dir, path: seq<string>, rest: seq<(Dir, seq<string>)>)
    ensures PendingVisits([(d, path)] + rest) ==
      FileVisits(d.files, path) + PendingVisits(Children(Prune(d.subdirs), path) + rest)
  {
    var kids := Children(Prune(d.subdirs), path);
    PendingConcat(kids, rest);
    ChildrenVisits(Prune(d.subdirs), path);
    assert ([(d, path)] + rest)[0] == (d, path) && ([(d, path)] + rest)[1..] == rest;
  }

  /** What is left to walk shrinks with every directory taken off the list. */
  lemma PendingShrinks(d: Dir, path: seq<string>, rest: seq<(Dir, seq<string>)>)
    ensures PendingSize(Children(Prune(d.subdirs), path) + rest) < PendingSize([(d, path)] + rest)
  {
    PendingConcat(Children(Prune(d.subdirs), path), rest);
    ChildrenVisits(Prune(d.subdirs), path);
    PruneShrinks(d.subdirs);
    assert ([(d, path)] + rest)[0] == (d, path) && ([(d, path)] + rest)[1..] == rest;
  }

  lemma FileVisitsSnoc(files: seq<FileEntry>, path: seq<string>, j: nat)
    requires j < |files|
    ensures FileVisits(files[..j + 1], path) == FileVisits(files[..j], path) + [Visit(path, files[j])]
  {
  }

  /** The text a single visited file adds to the dump. */
  function Emitted(v: Visit, keep: string -> bool): string
  {
    if keep(v.file.name) && v.file.content.Some?
    then Block(RelPath(v.dirs, v.file.name), v.file.content.value)
    else ""
  }

  /** Writing one more visited file extends the dump by that file's text. */
  lemma WriteStep(prefix: seq<Visit>, v: Visit, keep: string -> bool)
    ensures Framed(Kept(prefix + [v], keep)) == Framed(Kept(prefix, keep)) + Emitted(v, keep)
  {
    KeptConcat(prefix, [v], keep);
    FramedConcat(Kept(prefix, keep), Kept([v], keep));
    EmittedIsFramed(v, keep);
  }

  lemma EmittedIsFramed(v: Visit, keep: string -> bool)
    ensures Framed(Kept([v], keep)) == Emitted(v, keep)
  {
    KeptOne(v, keep);
    FramedOne(Kept([v], keep));
  }

  /**
   * `for file in files` of one directory: the blocks of the files that
   * pass the rule and can be read, in listing order; a file that cannot be
   * read is skipped and the loop goes on.
   */
  method WriteFiles(files: seq<FileEntry>, path: seq<string>) returns (text: string)
    ensures text == Framed(Kept(FileVisits(files, path), ShouldWrite))
  {
    text := "";
    var j := 0;
    while j < |files|
      invariant 0 <= j <= |files|
      invariant text == Framed(Kept(FileVisits(files[..j], path), ShouldWrite))
    {
      var file := files[j];
      var piece := "";
      if ShouldWrite(file.name) {
        match file.content
        case Some(content) =>
          piece := Block(RelPath(path, file.name), content);
        case None =>
      }
      assert piece == Emitted(Visit(path, file), ShouldWrite);
      FileVisitsSnoc(files, path, j);
      WriteStep(FileVisits(files[..j], path), Visit(path, file), ShouldWrite);
      text := text + piece;
      j := j + 1;
    }
    assert files[..j] == files;
  }

  /** The text still to come after one directory is written: its files, then everything below and after it. */
  lemma PendingTextStep(d: Dir, path: seq<string>, rest: seq<(Dir, seq<string>)>, keep: string -> bool)
    ensures Framed(Kept(PendingVisits([(d, path)] + rest), keep)) ==
      Framed(Kept(FileVisits(d.files, path), keep)) +
      Framed(Kept(PendingVisits(Children(Prune(d.subdirs), path) + rest), keep))
  {
    PendingStep(d, path, rest);
    var next := PendingVisits(Children(Prune(d.subdirs), path) + rest);
    KeptConcat(FileVisits(d.files, path), next, keep);
    FramedConcat(Kept(FileVisits(d.files, path), keep), Kept(next, keep));
  }

  /**
   * The text still to come from a walk is the first directory's files, then
   * the text of the walk with that directory's children ahead of the rest.
   */
  lemma WalkStepText(pending: seq<(Dir, seq<string>)>, out: string, text: string, keep: string -> bool)
    requires pending != []
    requires text == Framed(Kept(FileVisits(pending[0].0.files, pending[0].1), keep))
    ensures out + Framed(Kept(PendingVisits(pending), keep)) ==
      (out + text) +
      Framed(Kept(PendingVisits(Children(Prune(pending[0].0.subdirs), pending[0].1) + pending[1..]), keep))
    ensures PendingSize(Children(Prune(pending[0].0.subdirs), pending[0].1) + pending[1..]) < PendingSize(pending)
  {
    var d, path, rest := pending[0].0, pending[0].1, pending[1..];
    assert pending == [(d, path)] + rest;
    PendingTextStep(d, path, rest, keep);
    PendingShrinks(d, path, rest);
    var after := Framed(Kept(PendingVisits(Children(Prune(d.subdirs), path) + rest), keep));
    assert out + (text + after) == (out + text) + after;
  }

  /**
   * One round of `os.walk`: the next directory's files are written, and its
   * subdirectories, pruned in place, go ahead of the rest of the walk.
   * What is still to be written is unchanged as a whole.
   */
  method WalkStep(out: string, pending: seq<(Dir, seq<string>)>)
    returns (out': string, pending': seq<(Dir, seq<string>)>)
    requires pending != []
    ensures out' + Framed(Kept(PendingVisits(pending'), ShouldWrite)) ==
      out + Framed(Kept(PendingVisits(pending), ShouldWrite))
    ensures PendingSize(pending') < PendingSize(pending)
  {
    var d, path := pending[0].0, pending[0].1;
    var dirs := Prune(d.subdirs);
    var text := WriteFiles(d.files, path);
    WalkStepText(pending, out, text, ShouldWrite);
    out' := out + text;
    pending' := Children(dirs, path) + pending[1..];
  }

  /**
   * `collect_project_code`: the header, then the walk from the working
   * directory down. The text written is the dump of the tree.
   */
  method CollectProjectCode(cwd: string, root: Dir) returns (out: string)
    ensures out == Dump(cwd, root)
  {
    out := Header(cwd);
    var pending: seq<(Dir, seq<string>)> := [(root, [])];
    assert PendingVisits(pending) == Visits(root, []) by {
      assert pending[1..] == [];
    }
    while pending != []
      invariant out + Framed(Kept(PendingVisits(pending), ShouldWrite)) == Dump(cwd, root)
      decreases PendingSize(pending)
    {
      out, pending := WalkStep(out, pending);
    }
  }
}
