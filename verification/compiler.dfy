/**
 * The compilation planner's state (src/compiler/mod.rs): compilers, source
 * files and their object paths, the staged `CompileCommandBuilder` and the
 * finalising `build` step.
 */
module Compilation {
  import opened Base
  import opened Paths
  import opened Env

  datatype Status = Aborted | Success
  datatype Lang = C | Cpp
  datatype Std = C99 | C11
  datatype Compiler = Clang | Gcc | Msvc
  datatype Target = X86_64
  datatype OptimizationLevel = O3 | O2 | O1 | O0 | Small | Fast

  /** `Compiler::sys_default` for the given host. */
  function DefaultCompiler(os: OS): (c: Compiler)
    ensures c == Msvc <==> os == Windows
    ensures c == Clang <==> os == MacOS
    ensures c == Gcc <==> os == Linux
  {
    match os
    case Windows => Msvc
    case MacOS => Clang
    case Linux => Gcc
  }

  /** `Compiler::as_str`: the driver executable for a compiler and language. */
  function CompilerName(c: Compiler, lang: Lang): (name: string)
    ensures name == "cl" <==> c == Msvc
  {
    match (c, lang)
    case (Clang, C) => "clang"
    case (Clang, Cpp) => "clang++"
    case (Gcc, C) => "gcc"
    case (Gcc, Cpp) => "g++"
    case (Msvc, _) => "cl"
  }

  /** The GCC and Clang drivers tell C from C++; MSVC uses one driver for both. */
  lemma CompilerNameDistinguishes(c1: Compiler, l1: Lang, c2: Compiler, l2: Lang)
    requires c1 != Msvc && c2 != Msvc
    ensures CompilerName(c1, l1) == CompilerName(c2, l2) <==> c1 == c2 && l1 == l2
    ensures CompilerName(Msvc, l1) == CompilerName(Msvc, l2)
  {
  }

  /** One source file and the object file it compiles to. */
  datatype CompilationFile = CompilationFile(src: Path, out: Path)

  /** The file name of a path's final component, when it is a normal name. */
  function LastName(p: Path): Option<Name> {
    if |p| > 0 && p[|p| - 1].Normal? then Some(p[|p| - 1].name) else None
  }

  /** `CompilationFile::new`: the source is normalised and the object sits beside it
      with the extension `o`. */
  function NewFile(src: Path): (f: CompilationFile)
    ensures f.src == Normalize(src)
    ensures |f.out| == |f.src| && f.out[..|f.out| - 1] == f.src[..|f.src| - 1]
    ensures LastName(f.src).Some? ==>
              LastName(f.out).Some?
              && Stem(LastName(f.out).value) == Stem(LastName(f.src).value)
              && Extension(LastName(f.out).value) == "o"
    ensures LastName(f.src).None? ==> f.out == f.src
  {
    var s := Normalize(src);
    SetExtensionReadsBack(s, "o");
    CompilationFile(s, SetExtension(s, "o"))
  }

  lemma SetExtensionReadsBack(p: Path, ext: string)
    requires ext != "" && '.' !in ext
    ensures LastName(p).Some? ==>
              LastName(SetExtension(p, ext)) == Some(WithExtension(LastName(p).value, ext))
              && Stem(WithExtension(LastName(p).value, ext)) == Stem(LastName(p).value)
              && Extension(WithExtension(LastName(p).value, ext)) == ext
  {
    if LastName(p).Some? {
      WithExtensionRoundTrip(LastName(p).value, ext);
    }
  }

  /** `CompilationFile::prepend_outdir`. */
  function PrependOutdir(f: CompilationFile, objDir: Path): (r: CompilationFile)
    ensures r.src == f.src
    ensures IsAbsolute(f.out) ==> r.out == SetExtension(f.out, "o")
    ensures !IsAbsolute(f.out) && NoCurDir(f.out) && |f.out| > 0 ==>
              r.out == objDir + SetExtension(f.out, "o")
  {
    var r := f.(out := SetExtension(Join(objDir, f.out), "o"));
    if |f.out| > 0 then SetExtensionUnderBase(objDir, f.out, "o"); r else r
  }

  /** A relative object that already carries the extension `o`. */
  predicate SettledObject(out: Path) {
    !IsAbsolute(out) && NoCurDir(out)
    && LastName(out).Some? && WithExtension(LastName(out).value, "o") == LastName(out).value
  }

  /** A settled object under a relative directory without `.` is settled again. */
  lemma SettledUnderDir(dir: Path, out: Path)
    requires !IsAbsolute(dir) && NoCurDir(dir) && SettledObject(out)
    ensures SettledObject(dir + out)
  {
    var p := dir + out;
    assert p[|p| - 1] == out[|out| - 1];
    assert !IsAbsolute(p) by {
      if |dir| > 0 { assert p[0] == dir[0]; } else { assert p == out; }
    }
    assert NoCurDir(p) by {
      forall i | 0 <= i < |p| ensures !p[i].CurDir? {
        if i < |dir| { assert p[i] == dir[i]; } else { assert p[i] == out[i - |dir|]; }
      }
    }
  }

  /** `prepend_outdir` on a settled object just puts the object directory in front, and
      the result is settled again. */
  lemma PrependOutdirPrefixes(f: CompilationFile, objDir: Path)
    requires !IsAbsolute(objDir) && NoCurDir(objDir) && SettledObject(f.out)
    ensures PrependOutdir(f, objDir).out == objDir + f.out
    ensures SettledObject(objDir + f.out)
  {
    assert Join(objDir, f.out) == objDir + f.out;
    SetExtensionUnderBase(objDir, f.out, "o");
    SetExtensionFixed(f.out, "o");
    SettledUnderDir(objDir, f.out);
  }

  /** `prepend_outdir` is not idempotent: a settled object gains the object directory
      again on every application. */
  lemma PrependOutdirNests(f: CompilationFile, objDir: Path)
    requires !IsAbsolute(objDir) && NoCurDir(objDir) && SettledObject(f.out)
    ensures PrependOutdir(PrependOutdir(f, objDir), objDir).out == objDir + objDir + f.out
  {
    PrependOutdirPrefixes(f, objDir);
    PrependOutdirPrefixes(PrependOutdir(f, objDir), objDir);
    AppendAssoc(objDir, objDir, f.out);
  }

  /** The object-file extension each compiler family expects. */
  function ObjExt(c: Compiler): string {
    if c == Msvc then "obj" else "o"
  }

  /** One iteration of `normalize_path` over the files. */
  function FinalizeFile(f: CompilationFile, objDir: Path, c: Compiler): (r: CompilationFile)
    ensures r.src == f.src
    ensures r.out == SetExtension(Join(objDir, f.out), ObjExt(c))
  {
    var g := PrependOutdir(f, objDir);
    SetExtensionTwice(Join(objDir, f.out), "o", ObjExt(c));
    if c == Msvc then g.(out := SetExtension(g.out, "obj")) else g
  }

  function FinalizeFiles(files: seq<CompilationFile>, objDir: Path, c: Compiler): (r: seq<CompilationFile>)
    ensures |r| == |files|
    ensures forall i :: 0 <= i < |files| ==> r[i] == FinalizeFile(files[i], objDir, c)
  {
    seq(|files|, i requires 0 <= i < |files| => FinalizeFile(files[i], objDir, c))
  }

  function NormalizeAll(ps: seq<Path>): (r: seq<Path>)
    ensures |r| == |ps|
    ensures forall i :: 0 <= i < |ps| ==> r[i] == Normalize(ps[i])
    decreases |ps|
  {
    if |ps| == 0 then [] else [Normalize(ps[0])] + NormalizeAll(ps[1..])
  }

  datatype CompileCommand = CompileCommand(
    compiler: Compiler,
    lang: Lang,
    optimizationLevel: Option<OptimizationLevel>,
    debug: Option<string>,
    files: seq<CompilationFile>,
    includes: seq<Path>,
    definitions: seq<string>,
    std: Option<Std>,
    target: Option<Target>,
    outDir: Path,
    dirs: seq<Path>,
    workingDirectory: Path)

  /** The staging object; only `Build` turns it into a `CompileCommand`. */
  datatype CompileCommandBuilder = CompileCommandBuilder(inner: CompileCommand)

  /** `CompileCommand::builder()`: host compiler, C, no options, no files, output and
      working directory `.`. */
  function NewCompileBuilder(os: OS): (b: CompileCommandBuilder)
    ensures b.inner.compiler == DefaultCompiler(os) && b.inner.lang == C
    ensures b.inner.optimizationLevel.None? && b.inner.debug.None?
    ensures b.inner.std.None? && b.inner.target.None?
    ensures b.inner.files == [] && b.inner.includes == [] && b.inner.definitions == [] && b.inner.dirs == []
    ensures b.inner.outDir == [CurDir] && b.inner.workingDirectory == [CurDir]
  {
    CompileCommandBuilder(CompileCommand(
      DefaultCompiler(os), C, None, None, [], [], [], None, None, [CurDir], [], [CurDir]))
  }

  function WithWorkingDir(b: CompileCommandBuilder, dir: Path): (r: CompileCommandBuilder)
    ensures r.inner.workingDirectory == dir
    ensures r.inner == b.inner.(workingDirectory := r.inner.workingDirectory)
  {
    CompileCommandBuilder(b.inner.(workingDirectory := dir))
  }

  function WithCompiler(b: CompileCommandBuilder, c: Compiler): (r: CompileCommandBuilder)
    ensures r.inner.compiler == c
    ensures r.inner == b.inner.(compiler := r.inner.compiler)
  {
    CompileCommandBuilder(b.inner.(compiler := c))
  }

  function WithKind(b: CompileCommandBuilder, lang: Lang): (r: CompileCommandBuilder)
    ensures r.inner.lang == lang
    ensures r.inner == b.inner.(lang := r.inner.lang)
  {
    CompileCommandBuilder(b.inner.(lang := lang))
  }

  function WithOptLevel(b: CompileCommandBuilder, level: OptimizationLevel): (r: CompileCommandBuilder)
    ensures r.inner.optimizationLevel == Some(level)
    ensures r.inner == b.inner.(optimizationLevel := r.inner.optimizationLevel)
  {
    CompileCommandBuilder(b.inner.(optimizationLevel := Some(level)))
  }

  function WithDebug(b: CompileCommandBuilder, debugOutput: string): (r: CompileCommandBuilder)
    ensures r.inner.debug == Some(debugOutput)
    ensures r.inner == b.inner.(debug := r.inner.debug)
  {
    CompileCommandBuilder(b.inner.(debug := Some(debugOutput)))
  }

  function WithOutDir(b: CompileCommandBuilder, outDir: Path): (r: CompileCommandBuilder)
    ensures r.inner.outDir == outDir
    ensures r.inner == b.inner.(outDir := r.inner.outDir)
  {
    CompileCommandBuilder(b.inner.(outDir := outDir))
  }

  function WithStd(b: CompileCommandBuilder, std: Std): (r: CompileCommandBuilder)
    ensures r.inner.std == Some(std)
    ensures r.inner == b.inner.(std := r.inner.std)
  {
    CompileCommandBuilder(b.inner.(std := Some(std)))
  }

  function WithTarget(b: CompileCommandBuilder, target: Target): (r: CompileCommandBuilder)
    ensures r.inner.target == Some(target)
    ensures r.inner == b.inner.(target := r.inner.target)
  {
    CompileCommandBuilder(b.inner.(target := Some(target)))
  }

  /** The directories a list of files contributes: each source's parent, when it has one. */
  function SourceDirs(files: seq<CompilationFile>): (r: seq<Path>)
    ensures |r| <= |files|
    decreases |files|
  {
    if |files| == 0 then []
    else OptionToSeq(Parent(files[0].src)) + SourceDirs(files[1..])
  }

  /** Exactly the parents of the sources that have one come back. */
  lemma {:induction false} SourceDirsMembers(files: seq<CompilationFile>)
    ensures forall d :: d in SourceDirs(files) <==> exists f :: f in files && Parent(f.src) == Some(d)
    decreases |files|
  {
    if |files| > 0 {
      SourceDirsMembers(files[1..]);
      assert forall f :: f in files <==> f == files[0] || f in files[1..];
    }
  }

  /** One file contributes its source's parent, if it has one. */
  lemma SourceDirsOne(f: CompilationFile)
    ensures SourceDirs([f]) == OptionToSeq(Parent(f.src))
  {
    assert [f][1..] == [];
  }

  /** The directories of a list with one more file in front. */
  lemma SourceDirsCons(f: CompilationFile, rest: seq<CompilationFile>)
    ensures SourceDirs([f] + rest) == OptionToSeq(Parent(f.src)) + SourceDirs(rest)
  {
    var fs := [f] + rest;
    assert fs[0] == f && fs[1..] == rest;
  }

  /** The directories of two lists of files are those of the first, then those of the
      second: one entry per file with a parent, in file order. */
  lemma {:induction false} SourceDirsAppend(a: seq<CompilationFile>, b: seq<CompilationFile>)
    ensures SourceDirs(a + b) == SourceDirs(a) + SourceDirs(b)
    decreases |a|
  {
    if |a| == 0 {
      assert a + b == b;
    } else {
      var head := OptionToSeq(Parent(a[0].src));
      SourceDirsAppend(a[1..], b);
      ConsSplit(a);
      AppendAssoc([a[0]], a[1..], b);
      SourceDirsCons(a[0], a[1..] + b);
      SourceDirsCons(a[0], a[1..]);
      AppendAssoc(head, SourceDirs(a[1..]), SourceDirs(b));
    }
  }

  /** `file`: appends the file and records its source's parent directory. */
  function AddFile(b: CompileCommandBuilder, f: CompilationFile): (r: CompileCommandBuilder)
    ensures r.inner.files == b.inner.files + [f]
    ensures Parent(f.src).Some? ==> r.inner.dirs == b.inner.dirs + [Parent(f.src).value]
    ensures Parent(f.src).None? ==> r.inner.dirs == b.inner.dirs
    ensures r.inner == b.inner.(files := r.inner.files, dirs := r.inner.dirs)
  {
    CompileCommandBuilder(b.inner.(files := b.inner.files + [f],
                                   dirs := b.inner.dirs + OptionToSeq(Parent(f.src))))
  }

  /** `files`: appends the files in order and records their parents in order. */
  function AddFiles(b: CompileCommandBuilder, fs: seq<CompilationFile>): (r: CompileCommandBuilder)
    ensures r.inner.files == b.inner.files + fs
    ensures r.inner == b.inner.(files := r.inner.files, dirs := r.inner.dirs)
  {
    CompileCommandBuilder(b.inner.(files := b.inner.files + fs, dirs := b.inner.dirs + SourceDirs(fs)))
  }

  /** Adding files one at a time. */
  function AddEach(b: CompileCommandBuilder, fs: seq<CompilationFile>): CompileCommandBuilder
    decreases |fs|
  {
    if |fs| == 0 then b else AddEach(AddFile(b, fs[0]), fs[1..])
  }

  /** `files(fs)` has exactly the effect of `file(f)` for each `f` of `fs` in turn. */
  lemma {:induction false} AddFilesIsRepeatedAddFile(b: CompileCommandBuilder, fs: seq<CompilationFile>)
    ensures AddFiles(b, fs) == AddEach(b, fs)
    decreases |fs|
  {
    if |fs| > 0 {
      var b1 := AddFile(b, fs[0]);
      AddFilesIsRepeatedAddFile(b1, fs[1..]);
      ConsSplit(fs);
      AppendAssoc(b.inner.files, [fs[0]], fs[1..]);
      AppendAssoc(b.inner.dirs, OptionToSeq(Parent(fs[0].src)), SourceDirs(fs[1..]));
    }
  }

  function AddInclude(b: CompileCommandBuilder, dir: Path): (r: CompileCommandBuilder)
    ensures r.inner.includes == b.inner.includes + [dir]
    ensures r.inner == b.inner.(includes := r.inner.includes)
  {
    CompileCommandBuilder(b.inner.(includes := b.inner.includes + [dir]))
  }

  function AddIncludes(b: CompileCommandBuilder, dirs: seq<Path>): (r: CompileCommandBuilder)
    ensures r.inner.includes == b.inner.includes + dirs
    ensures r.inner == b.inner.(includes := r.inner.includes)
  {
    CompileCommandBuilder(b.inner.(includes := b.inner.includes + dirs))
  }

  function SetIncludes(b: CompileCommandBuilder, dirs: seq<Path>): (r: CompileCommandBuilder)
    ensures r.inner.includes == dirs
    ensures r.inner == b.inner.(includes := r.inner.includes)
  {
    CompileCommandBuilder(b.inner.(includes := dirs))
  }

  function AddDefinition(b: CompileCommandBuilder, def: string): (r: CompileCommandBuilder)
    ensures r.inner.definitions == b.inner.definitions + [def]
    ensures r.inner == b.inner.(definitions := r.inner.definitions)
  {
    CompileCommandBuilder(b.inner.(definitions := b.inner.definitions + [def]))
  }

  function AddDefinitions(b: CompileCommandBuilder, defs: seq<string>): (r: CompileCommandBuilder)
    ensures r.inner.definitions == b.inner.definitions + defs
    ensures r.inner == b.inner.(definitions := r.inner.definitions)
  {
    CompileCommandBuilder(b.inner.(definitions := b.inner.definitions + defs))
  }

  function SetDefinitions(b: CompileCommandBuilder, defs: seq<string>): (r: CompileCommandBuilder)
    ensures r.inner.definitions == defs
    ensures r.inner == b.inner.(definitions := r.inner.definitions)
  {
    CompileCommandBuilder(b.inner.(definitions := defs))
  }

  /** The object directory, `out_dir/obj`. */
  function ObjDir(outDir: Path): (d: Path)
    ensures d == outDir + [Normal("obj")]
  {
    Join(outDir, [Normal("obj")])
  }

  /** `build` (through `normalize_path`): every object moves under `out_dir/obj` with the
      compiler's object extension, every include is normalised; nothing else changes. */
  function Build(b: CompileCommandBuilder): (c: CompileCommand)
    ensures |c.files| == |b.inner.files|
    ensures forall i :: 0 <= i < |c.files| ==>
              c.files[i].src == b.inner.files[i].src
              && c.files[i].out == SetExtension(Join(ObjDir(b.inner.outDir), b.inner.files[i].out), ObjExt(b.inner.compiler))
    ensures |c.includes| == |b.inner.includes|
    ensures forall i :: 0 <= i < |c.includes| ==> c.includes[i] == Normalize(b.inner.includes[i])
    ensures c == b.inner.(files := c.files, includes := c.includes)
  {
    var objDir := ObjDir(b.inner.outDir);
    b.inner.(files := FinalizeFiles(b.inner.files, objDir, b.inner.compiler),
             includes := NormalizeAll(b.inner.includes))
  }

  /** For a relative source that names a file, the object is
      `out_dir/obj/<normalised source>` with its extension replaced. */
  lemma ObjectPathOfRelativeSource(outDir: Path, src: Path, c: Compiler)
    requires !IsAbsolute(Normalize(src)) && LastName(Normalize(src)).Some?
    ensures FinalizeFile(NewFile(src), ObjDir(outDir), c).out
            == SetExtension(outDir + [Normal("obj")] + Normalize(src), ObjExt(c))
  {
    var s := Normalize(src);
    var o := SetExtension(s, "o");
    var d := ObjDir(outDir);
    SetExtensionKeepsShape(s, "o");
    assert Join(d, o) == d + o;
    SetExtensionUnderBase(d, s, "o");
    SetExtensionTwice(d + s, "o", ObjExt(c));
  }

  /** An absolute source is not relativised: joining replaces the object directory, so
      the object lands next to the source, outside `out_dir`. */
  lemma ObjectPathOfAbsoluteSource(outDir: Path, src: Path, c: Compiler)
    requires IsAbsolute(Normalize(src)) && |Normalize(src)| > 1
    ensures FinalizeFile(NewFile(src), ObjDir(outDir), c).out == SetExtension(Normalize(src), ObjExt(c))
  {
    var s := Normalize(src);
    var o := SetExtension(s, "o");
    assert o[0] == o[..|o| - 1][0] == s[0];
    SetExtensionTwice(s, "o", ObjExt(c));
  }

  /** A source whose components all cancel normalises to `.`, and its object becomes
      `out_dir/obj.o`: the `.` vanishes when joined and the extension lands on `obj`. */
  lemma ObjectPathOfCancelledSource(outDir: Path, c: Compiler)
    requires |outDir| > 0 && NoCurDir(outDir)
    ensures FinalizeFile(NewFile([Normal("a"), ParentDir]), ObjDir(outDir), c).out
            == outDir + [Normal(WithExtension("obj", ObjExt(c)))]
  {
    NormalizeExampleRootAndEmpty();
    var f := NewFile([Normal("a"), ParentDir]);
    assert f.out == [CurDir];
    var j := Join(ObjDir(outDir), f.out);
    assert DropCurDir([CurDir]) == DropCurDir([]) + [];
    assert j == outDir + [Normal("obj")];
    assert j[..|j| - 1] == outDir;
  }

  lemma StemOfCDotC()
    ensures Stem("c.c") == "c"
  {
    var n: Name := "c.c";
    assert LastDot(n[..1]) == -1;
    assert LastDot(n[..2]) == 1;
    assert LastDot(n) == 1;
  }

  lemma ExampleSourceIsNormal()
    ensures Normalize([Normal("a"), Normal("b"), Normal("c.c")]) == [Normal("a"), Normal("b"), Normal("c.c")]
  {
    var src := [Normal("a"), Normal("b"), Normal("c.c")];
    assert IsNormalForm(src);
    NormalFormIsFixed(src);
  }

  lemma ExampleObjectPathShape(src: Path, outDir: Path, c: Compiler)
    requires src == [Normal("a"), Normal("b"), Normal("c.c")] && outDir == [Normal("out")]
    ensures FinalizeFile(NewFile(src), ObjDir(outDir), c).out == SetExtension(outDir + [Normal("obj")] + src, ObjExt(c))
  {
    ExampleSourceIsNormal();
    ObjectPathOfRelativeSource(outDir, src, c);
  }

  lemma ExampleObjectName(p: Path, c: Compiler)
    requires p == [Normal("out"), Normal("obj"), Normal("a"), Normal("b"), Normal("c.c")]
    ensures SetExtension(p, ObjExt(c))
            == [Normal("out"), Normal("obj"), Normal("a"), Normal("b"), Normal(if c == Msvc then "c.obj" else "c.o")]
  {
    var dir := [Normal("out"), Normal("obj"), Normal("a"), Normal("b")];
    assert p[..|p| - 1] == dir;
    var w := WithExtension("c.c", ObjExt(c));
    assert w == (if c == Msvc then "c.obj" else "c.o") by {
      StemOfCDotC();
    }
    assert SetExtension(p, ObjExt(c)) == dir + [Normal(w)];
  }

  /** `out/obj/a/b/c.o`, or `out/obj/a/b/c.obj` for MSVC. */
  function ExampleObject(c: Compiler): Path {
    [Normal("out"), Normal("obj"), Normal("a"), Normal("b"), Normal(if c == Msvc then "c.obj" else "c.o")]
  }

  /** The worked example: `a/b/c.c` with output directory `out` compiles to
      `out/obj/a/b/c.o`, or `out/obj/a/b/c.obj` under MSVC. */
  lemma ObjectPathExample(src: Path, outDir: Path, c: Compiler)
    requires src == [Normal("a"), Normal("b"), Normal("c.c")] && outDir == [Normal("out")]
    ensures FinalizeFile(NewFile(src), ObjDir(outDir), c).out == ExampleObject(c)
  {
    var p := outDir + [Normal("obj")] + src;
    assert p == [Normal("out"), Normal("obj"), Normal("a"), Normal("b"), Normal("c.c")];
    ExampleObjectPathShape(src, outDir, c);
    ExampleObjectName(p, c);
  }

  /** `get_link_files`: every object path, in file order, stale or not. */
  function LinkFiles(c: CompileCommand): (objs: seq<Path>)
    ensures |objs| == |c.files|
    ensures forall i :: 0 <= i < |c.files| ==> objs[i] == c.files[i].out
  {
    seq(|c.files|, i requires 0 <= i < |c.files| => c.files[i].out)
  }
}
