/**
 * The link planner (src/linker/mod.rs): which tool links the objects of a
 * finished `CompileCommand`, the argument list it gets, and whether the
 * artifact is stale. The host operating system, whose `#[cfg(target_os)]`
 * choices the source fixes at compile time, is a parameter.
 */
module Linking {
  import opened Base
  import opened Paths
  import opened Env
  import Compilation

  datatype BinType = StaticLib | DynamicLib | Binary
  datatype Linker = Clang | LlvmLd | Gcc | Ld | Link

  /** `Linker::sys_default` for the given host. */
  function DefaultLinker(os: OS): (l: Linker)
    ensures l == Link <==> os == Windows
    ensures l == LlvmLd <==> os == MacOS
    ensures l == Ld <==> os == Linux
  {
    match os
    case Windows => Link
    case MacOS => LlvmLd
    case Linux => Ld
  }

  /** The artifact name used when none is configured. */
  const DefaultExecName: string := "a.exe"

  datatype LinkerCommand = LinkerCommand(
    compile: Compilation.CompileCommand,
    binType: BinType,
    linker: Linker,
    name: string,
    links: seq<Path>,
    linkDirs: seq<Path>,
    flags: seq<string>,
    linkSysDefault: bool)

  datatype LinkerCommandBuilder = LinkerCommandBuilder(inner: LinkerCommand)

  /** `LinkerCommand::builder`: an executable named `a.exe`, the host linker, nothing else. */
  function NewLinkerBuilder(compile: Compilation.CompileCommand, os: OS): (b: LinkerCommandBuilder)
    ensures b.inner.compile == compile
    ensures b.inner.binType == Binary && b.inner.linker == DefaultLinker(os)
    ensures b.inner.name == DefaultExecName
    ensures b.inner.links == [] && b.inner.linkDirs == [] && b.inner.flags == []
    ensures !b.inner.linkSysDefault
  {
    LinkerCommandBuilder(LinkerCommand(compile, Binary, DefaultLinker(os), DefaultExecName, [], [], [], false))
  }

  /** `build`: the staged command, unchanged. */
  function BuildLinker(b: LinkerCommandBuilder): (l: LinkerCommand)
    ensures l == b.inner
  {
    b.inner
  }

  function WithBinType(b: LinkerCommandBuilder, bin: BinType): (r: LinkerCommandBuilder)
    ensures r.inner.binType == bin
    ensures r.inner == b.inner.(binType := r.inner.binType)
  {
    LinkerCommandBuilder(b.inner.(binType := bin))
  }

  function WithLinkSysDefault(b: LinkerCommandBuilder, link: bool): (r: LinkerCommandBuilder)
    ensures r.inner.linkSysDefault == link
    ensures r.inner == b.inner.(linkSysDefault := r.inner.linkSysDefault)
  {
    LinkerCommandBuilder(b.inner.(linkSysDefault := link))
  }

  function WithName(b: LinkerCommandBuilder, name: string): (r: LinkerCommandBuilder)
    ensures r.inner.name == name
    ensures r.inner == b.inner.(name := r.inner.name)
  {
    LinkerCommandBuilder(b.inner.(name := name))
  }

  function WithLinker(b: LinkerCommandBuilder, linker: Linker): (r: LinkerCommandBuilder)
    ensures r.inner.linker == linker
    ensures r.inner == b.inner.(linker := r.inner.linker)
  {
    LinkerCommandBuilder(b.inner.(linker := linker))
  }

  /** `link`: the library path is normalised on the way in. */
  function AddLink(b: LinkerCommandBuilder, link: Path): (r: LinkerCommandBuilder)
    ensures r.inner.links == b.inner.links + [Normalize(link)]
    ensures r.inner == b.inner.(links := r.inner.links)
  {
    LinkerCommandBuilder(b.inner.(links := b.inner.links + [Normalize(link)]))
  }

  function AddLinks(b: LinkerCommandBuilder, links: seq<Path>): (r: LinkerCommandBuilder)
    ensures |r.inner.links| == |b.inner.links| + |links|
    ensures r.inner.links[..|b.inner.links|] == b.inner.links
    ensures forall i :: 0 <= i < |links| ==> r.inner.links[|b.inner.links| + i] == Normalize(links[i])
    ensures r.inner == b.inner.(links := r.inner.links)
  {
    LinkerCommandBuilder(b.inner.(links := b.inner.links + Compilation.NormalizeAll(links)))
  }

  /** `set_links`: replaces the libraries by the normalised list. */
  function SetLinks(b: LinkerCommandBuilder, links: seq<Path>): (r: LinkerCommandBuilder)
    ensures |r.inner.links| == |links|
    ensures forall i :: 0 <= i < |links| ==> r.inner.links[i] == Normalize(links[i])
    ensures r.inner == b.inner.(links := r.inner.links)
  {
    LinkerCommandBuilder(b.inner.(links := Compilation.NormalizeAll(links)))
  }

  /** Adding libraries one at a time. */
  function AddEachLink(b: LinkerCommandBuilder, links: seq<Path>): LinkerCommandBuilder
    decreases |links|
  {
    if |links| == 0 then b else AddEachLink(AddLink(b, links[0]), links[1..])
  }

  /** `links(ls)` has exactly the effect of `link(l)` for each `l` of `ls` in turn. */
  lemma {:induction false} AddLinksIsRepeatedAddLink(b: LinkerCommandBuilder, links: seq<Path>)
    ensures AddLinks(b, links) == AddEachLink(b, links)
    decreases |links|
  {
    if |links| > 0 {
      var b1 := AddLink(b, links[0]);
      AddLinksIsRepeatedAddLink(b1, links[1..]);
      AppendAssoc(b.inner.links, [Normalize(links[0])], Compilation.NormalizeAll(links[1..]));
    }
  }

  /** `link_dir`: library directories are kept as given. */
  function AddLinkDir(b: LinkerCommandBuilder, dir: Path): (r: LinkerCommandBuilder)
    ensures r.inner.linkDirs == b.inner.linkDirs + [dir]
    ensures r.inner == b.inner.(linkDirs := r.inner.linkDirs)
  {
    LinkerCommandBuilder(b.inner.(linkDirs := b.inner.linkDirs + [dir]))
  }

  function AddLinkDirs(b: LinkerCommandBuilder, dirs: seq<Path>): (r: LinkerCommandBuilder)
    ensures r.inner.linkDirs == b.inner.linkDirs + dirs
    ensures r.inner == b.inner.(linkDirs := r.inner.linkDirs)
  {
    LinkerCommandBuilder(b.inner.(linkDirs := b.inner.linkDirs + dirs))
  }

  function SetLinkDirs(b: LinkerCommandBuilder, dirs: seq<Path>): (r: LinkerCommandBuilder)
    ensures r.inner.linkDirs == dirs
    ensures r.inner == b.inner.(linkDirs := r.inner.linkDirs)
  {
    LinkerCommandBuilder(b.inner.(linkDirs := dirs))
  }

  function AddFlag(b: LinkerCommandBuilder, flag: string): (r: LinkerCommandBuilder)
    ensures r.inner.flags == b.inner.flags + [flag]
    ensures r.inner == b.inner.(flags := r.inner.flags)
  {
    LinkerCommandBuilder(b.inner.(flags := b.inner.flags + [flag]))
  }

  function AddFlags(b: LinkerCommandBuilder, flags: seq<string>): (r: LinkerCommandBuilder)
    ensures r.inner.flags == b.inner.flags + flags
    ensures r.inner == b.inner.(flags := r.inner.flags)
  {
    LinkerCommandBuilder(b.inner.(flags := b.inner.flags + flags))
  }

  function SetFlags(b: LinkerCommandBuilder, flags: seq<string>): (r: LinkerCommandBuilder)
    ensures r.inner.flags == flags
    ensures r.inner == b.inner.(flags := r.inner.flags)
  {
    LinkerCommandBuilder(b.inner.(flags := flags))
  }

  /** `get_exec_ext`: Windows names every artifact kind; elsewhere executables have no
      extension and static and dynamic libraries end in `a` and `so`. */
  function ExecExt(bin: BinType, os: OS): (ext: string)
    ensures ext == "" <==> bin == Binary && os != Windows
    ensures '.' !in ext
  {
    match bin
    case Binary => if os == Windows then "exe" else ""
    case StaticLib => if os == Windows then "lib" else "a"
    case DynamicLib => if os == Windows then "dll" else "so"
  }

  /** Different artifact kinds get different extensions on every host, and macOS and
      Linux share one table. */
  lemma ExecExtDistinguishesKinds(b1: BinType, b2: BinType, os: OS)
    ensures ExecExt(b1, os) == ExecExt(b2, os) <==> b1 == b2
    ensures ExecExt(b1, MacOS) == ExecExt(b1, Linux)
  {
  }

  /** A name without `/` that is not `.` or `..`: one file name. */
  predicate PlainName(name: string) {
    '/' !in name && name != "" && name != "." && name != ".."
  }

  /** A plain name joins as one file name, with or without an extension set on it. */
  lemma PlainNameJoins(base: Path, name: string, ext: string)
    ensures PlainName(name) ==> Join(base, ParsePath(name)) == base + [Normal(name)]
    ensures PlainName(name) ==>
              Join(base, SetExtension(ParsePath(name), ext)) == base + [Normal(WithExtension(name, ext))]
  {
    if PlainName(name) {
      ParsePlainName(name);
      SingleName(base, name, ext);
      SingleName(base, WithExtension(name, ext), ext);
    }
  }

  /** The artifact `to_out` names: `out_dir` joined with the name carrying the
      artifact's extension. */
  function OutputPath(l: LinkerCommand, os: OS): (r: Path)
    ensures PlainName(l.name) ==>
              r == l.compile.outDir + [Normal(WithExtension(l.name, ExecExt(l.binType, os)))]
  {
    PlainNameJoins(l.compile.outDir, l.name, ExecExt(l.binType, os));
    Join(l.compile.outDir, SetExtension(ParsePath(l.name), ExecExt(l.binType, os)))
  }

  /** `out_file`: `out_dir` joined with the configured name as it is. */
  function OutFile(l: LinkerCommand): (r: Path)
    ensures PlainName(l.name) ==> r == l.compile.outDir + [Normal(l.name)]
  {
    PlainNameJoins(l.compile.outDir, l.name, "");
    Join(l.compile.outDir, ParsePath(l.name))
  }

  /** For a plain file name, the artifact written is the file `should_rerun` inspects with
      the artifact's extension set on it; they are the same file only when setting that
      extension leaves the name as it is. */
  lemma OutputAndCheckedFile(l: LinkerCommand, os: OS)
    requires PlainName(l.name)
    ensures OutputPath(l, os) == SetExtension(OutFile(l), ExecExt(l.binType, os))
    ensures OutputPath(l, os) == OutFile(l) <==> WithExtension(l.name, ExecExt(l.binType, os)) == l.name
  {
    var n: Name := l.name;
    SetExtensionUnderBase(l.compile.outDir, [Normal(n)], ExecExt(l.binType, os));
    SingleName(l.compile.outDir, n, ExecExt(l.binType, os));
    var a := l.compile.outDir + [Normal(WithExtension(n, ExecExt(l.binType, os)))];
    var b := l.compile.outDir + [Normal(n)];
    assert a == b ==> a[|a| - 1] == b[|b| - 1];
  }

  lemma StemOfAExe()
    ensures Stem("a.exe") == "a"
  {
    var n: Name := "a.exe";
    assert LastDot(n[..1]) == -1;
    assert LastDot(n[..2]) == 1;
    assert LastDot(n[..3]) == 1;
    assert LastDot(n[..4]) == 1;
    assert LastDot(n) == 1;
  }

  /** With the default name on Linux an executable is written to `out_dir/a`, while
      staleness is judged on `out_dir/a.exe`. */
  lemma DefaultNameOnLinux(l: LinkerCommand)
    requires l.name == DefaultExecName && l.binType == Binary
    ensures OutputPath(l, Linux) == l.compile.outDir + [Normal("a")]
    ensures OutFile(l) == l.compile.outDir + [Normal("a.exe")]
  {
    var n: Name := "a.exe";
    assert n[0] != '/' && n[1] != '/' && n[2] != '/' && n[3] != '/' && n[4] != '/';
    assert '/' !in n;
    assert n != "." && n != "..";
    StemOfAExe();
    assert WithExtension(n, "") == "a";
  }

  /** An object that is missing, has no readable time, or is newer than the artifact. */
  predicate ObjectForcesRerun(obj: Path, artifactTime: int, fs: FileSystem) {
    obj !in fs || fs[obj].modified.None? || artifactTime < fs[obj].modified.value
  }

  /** The loop of `should_rerun` over the link files, returning at the first object
      that forces a rerun. */
  function AnyObjectForcesRerun(objs: seq<Path>, artifactTime: int, fs: FileSystem): (rerun: bool)
    ensures rerun <==> exists i :: 0 <= i < |objs| && ObjectForcesRerun(objs[i], artifactTime, fs)
    decreases |objs|
  {
    if |objs| == 0 then false
    else
      match MetadataOf(fs, objs[0])
      case None => true
      case Some(meta) =>
        match meta.modified
        case None => true
        case Some(objTime) =>
          if artifactTime < objTime then true
          else
            var rest := AnyObjectForcesRerun(objs[1..], artifactTime, fs);
            assert forall i :: 1 <= i < |objs| ==> objs[i] == objs[1..][i - 1];
            rest
  }

  /** `should_rerun`: relink unless `out_file` has a readable time no earlier than that
      of every object file. */
  function ShouldRerun(l: LinkerCommand, fs: FileSystem): (rerun: bool)
    ensures rerun <==>
              || OutFile(l) !in fs
              || fs[OutFile(l)].modified.None?
              || exists i :: 0 <= i < |l.compile.files|
                   && ObjectForcesRerun(l.compile.files[i].out, fs[OutFile(l)].modified.value, fs)
  {
    match MetadataOf(fs, OutFile(l))
    case None => true
    case Some(meta) =>
      match meta.modified
      case None => true
      case Some(time) => AnyObjectForcesRerun(Compilation.LinkFiles(l.compile), time, fs)
  }

  /** An artifact as new as every object is not relinked; equal times count as fresh. */
  lemma UpToDateArtifactIsKept(l: LinkerCommand, fs: FileSystem, t: int)
    requires OutFile(l) in fs && fs[OutFile(l)].modified == Some(t)
    requires forall f :: f in l.compile.files ==>
               f.out in fs && fs[f.out].modified.Some? && fs[f.out].modified.value <= t
    ensures !ShouldRerun(l, fs)
  {
    forall i | 0 <= i < |l.compile.files|
      ensures !ObjectForcesRerun(l.compile.files[i].out, t, fs)
    {
      assert l.compile.files[i] in l.compile.files;
    }
  }

  /** One object rebuilt after the artifact is enough to relink. */
  lemma NewerObjectForcesRelink(l: LinkerCommand, fs: FileSystem, k: nat)
    requires k < |l.compile.files| && OutFile(l) in fs && fs[OutFile(l)].modified.Some?
    requires l.compile.files[k].out in fs && fs[l.compile.files[k].out].modified.Some?
    requires fs[OutFile(l)].modified.value < fs[l.compile.files[k].out].modified.value
    ensures ShouldRerun(l, fs)
  {
    assert ObjectForcesRerun(l.compile.files[k].out, fs[OutFile(l)].modified.value, fs);
  }

  /** `linker`: the program for a linker and artifact kind; GCC has no entry (the
      source reaches `todo!()`). */
  function Driver(linker: Linker, bin: BinType): (program: Option<string>)
    ensures program.None? <==> linker == Gcc
    ensures linker == Link ==> program == Some(if bin == StaticLib then "lib.exe" else "link.exe")
    ensures linker == Clang ==> program == Some(if bin == StaticLib then "llvm-ar" else "clang")
  {
    match (linker, bin)
    case (Link, StaticLib) => Some("lib.exe")
    case (Link, _) => Some("link.exe")
    case (Clang, StaticLib) => Some("llvm-ar")
    case (Clang, _) => Some("clang")
    case (LlvmLd, _) => Some("lld")
    case (Ld, _) => Some("ld")
    case (Gcc, _) => None
  }

  /** `shared_flag`: only MSVC's linker and Clang know how to build a shared library. */
  function SharedFlag(linker: Linker): (flag: Option<string>)
    ensures flag.Some? <==> linker == Link || linker == Clang
    ensures flag.Some? ==> flag.value == (if linker == Link then "/DLL" else "-shared")
  {
    match linker
    case Link => Some("/DLL")
    case Clang => Some("-shared")
    case _ => None
  }

  /** A linker command `build_command` can assemble without reaching `todo!()`. */
  predicate CanBuild(l: LinkerCommand) {
    l.linker != Gcc && SharedFlagKnown(l.linker, l.binType)
  }

  /** `to_out`: the output directive naming the artifact, given as displayed. */
  function OutTokens(linker: Linker, out: string): (toks: seq<string>)
    ensures linker == Link ==> toks == ["/OUT:" + out]
    ensures linker != Link ==> toks == ["-o", out]
  {
    if linker == Link then ["/OUT:" + out] else ["-o", out]
  }

  /** `link_dir` for every library directory (given as displayed), in order. */
  function DirArgs(linker: Linker, dirs: seq<string>): (toks: seq<string>)
    ensures |toks| == if linker == Link then |dirs| else 2 * |dirs|
    decreases |dirs|
  {
    if |dirs| == 0 then []
    else
      var d := dirs[|dirs| - 1];
      DirArgs(linker, dirs[..|dirs| - 1]) + (if linker == Link then ["/LIBPATH:" + d] else ["-L", d])
  }

  /** MSVC's linker gets one `/LIBPATH:` token per directory, the others a `-L` switch
      and the directory. */
  lemma {:induction false} DirArgsTokens(linker: Linker, dirs: seq<string>)
    ensures var toks := DirArgs(linker, dirs);
            linker == Link ==> forall i :: 0 <= i < |dirs| ==> toks[i] == "/LIBPATH:" + dirs[i]
    ensures var toks := DirArgs(linker, dirs);
            linker != Link ==> forall i :: 0 <= i < |dirs| ==> toks[2 * i] == "-L" && toks[2 * i + 1] == dirs[i]
    decreases |dirs|
  {
    if |dirs| > 0 {
      var init := dirs[..|dirs| - 1];
      DirArgsTokens(linker, init);
      assert forall i :: 0 <= i < |init| ==> init[i] == dirs[i];
    }
  }

  /** `link_file` for every library (given as displayed), in order. */
  function LibArgs(linker: Linker, libs: seq<string>): (toks: seq<string>)
    ensures |toks| == if linker == Link then |libs| else 2 * |libs|
    decreases |libs|
  {
    if |libs| == 0 then []
    else
      var d := libs[|libs| - 1];
      LibArgs(linker, libs[..|libs| - 1]) + (if linker == Link then [d] else ["-l", d])
  }

  /** MSVC's linker gets each library as it is, the others a `-l` switch and the library. */
  lemma {:induction false} LibArgsTokens(linker: Linker, libs: seq<string>)
    ensures var toks := LibArgs(linker, libs);
            linker == Link ==> forall i :: 0 <= i < |libs| ==> toks[i] == libs[i]
    ensures var toks := LibArgs(linker, libs);
            linker != Link ==> forall i :: 0 <= i < |libs| ==> toks[2 * i] == "-l" && toks[2 * i + 1] == libs[i]
    decreases |libs|
  {
    if |libs| > 0 {
      var init := libs[..|libs| - 1];
      LibArgsTokens(linker, init);
      assert forall i :: 0 <= i < |init| ==> init[i] == libs[i];
    }
  }

  /** Whether `shared_flag` is reached and has an answer for this linker. */
  predicate SharedFlagKnown(linker: Linker, bin: BinType) {
    bin == DynamicLib ==> SharedFlag(linker).Some?
  }

  /** The tokens before the library directories: the shared-library switch, `/nologo`
      for MSVC's linker, then the output directive. */
  function HeaderArgs(linker: Linker, bin: BinType, out: string): (toks: seq<string>)
    requires SharedFlagKnown(linker, bin)
    ensures linker == Link ==>
              toks == (if bin == DynamicLib then ["/DLL"] else []) + ["/nologo", "/OUT:" + out]
    ensures linker != Link ==>
              toks == (if bin == DynamicLib then ["-shared"] else []) + ["-o", out]
  {
    var shared := if bin == DynamicLib then OptionToSeq(SharedFlag(linker)) else [];
    var nologo := if linker == Link then ["/nologo"] else [];
    var outToks := OutTokens(linker, out);
    AppendAssoc(shared, nologo, outToks);
    PairConcat("/nologo", "/OUT:" + out);
    EmptyConcat(outToks);
    shared + nologo + outToks
  }

  /** The argument list of `build_command` from its displayed parts: header, library
      directories, every object, libraries, then the extra flags verbatim. */
  function ArgList(linker: Linker, bin: BinType, out: string, dirs: seq<string>,
                   objs: seq<string>, libs: seq<string>, flags: seq<string>): (args: seq<string>)
    requires SharedFlagKnown(linker, bin)
    ensures |args| == |HeaderArgs(linker, bin, out)| + |DirArgs(linker, dirs)| + |objs|
                      + |LibArgs(linker, libs)| + |flags|
  {
    HeaderArgs(linker, bin, out) + DirArgs(linker, dirs) + objs + LibArgs(linker, libs) + flags
  }

  /** Where each group of tokens sits in the argument list. */
  lemma ArgListLayout(linker: Linker, bin: BinType, out: string, dirs: seq<string>,
                      objs: seq<string>, libs: seq<string>, flags: seq<string>)
    requires SharedFlagKnown(linker, bin)
    ensures var args := ArgList(linker, bin, out, dirs, objs, libs, flags);
            var header := HeaderArgs(linker, bin, out);
            var dirToks := DirArgs(linker, dirs);
            var libToks := LibArgs(linker, libs);
            var d := |header| + |dirToks|;
            var o := d + |objs|;
            && |args| == o + |libToks| + |flags|
            && args[..|header|] == header
            && args[|header|..d] == dirToks
            && args[d..o] == objs
            && args[o..o + |libToks|] == libToks
            && args[o + |libToks|..] == flags
  {
    ConcatPieces(ArgList(linker, bin, out, dirs, objs, libs, flags), HeaderArgs(linker, bin, out),
                 DirArgs(linker, dirs), objs, LibArgs(linker, libs), flags);
  }

  /** The `i`-th object sits `i` places after the library directories. */
  lemma ArgListObjectAt(linker: Linker, bin: BinType, out: string, dirs: seq<string>,
                        objs: seq<string>, libs: seq<string>, flags: seq<string>, i: nat)
    requires SharedFlagKnown(linker, bin) && i < |objs|
    ensures var args := ArgList(linker, bin, out, dirs, objs, libs, flags);
            var d := |HeaderArgs(linker, bin, out)| + |DirArgs(linker, dirs)|;
            && |args| >= d + |objs|
            && args[d + i] == objs[i]
  {
    MiddlePieceAt(ArgList(linker, bin, out, dirs, objs, libs, flags), HeaderArgs(linker, bin, out),
                  DirArgs(linker, dirs), objs, LibArgs(linker, libs), flags);
  }

  /** `build_command`'s argument list for a linker command whose artifact is displayed
      as `out`. */
  function LinkArgs(l: LinkerCommand, out: string): (args: seq<string>)
    requires CanBuild(l)
    ensures |args| == |HeaderArgs(l.linker, l.binType, out)| + |DirArgs(l.linker, DisplayAll(l.linkDirs))|
                      + |l.compile.files| + |LibArgs(l.linker, DisplayAll(l.links))| + |l.flags|
  {
    ArgList(l.linker, l.binType, out, DisplayAll(l.linkDirs),
            DisplayAll(Compilation.LinkFiles(l.compile)), DisplayAll(l.links), l.flags)
  }

  /** The list opens with the header (shared switch, `/nologo`, output directive) and
      closes with the raw flags, verbatim. */
  lemma LinkArgsEnds(l: LinkerCommand, out: string)
    requires CanBuild(l)
    ensures var args := LinkArgs(l, out);
            && args[..|HeaderArgs(l.linker, l.binType, out)|] == HeaderArgs(l.linker, l.binType, out)
            && args[|args| - |l.flags|..] == l.flags
  {
    ArgListLayout(l.linker, l.binType, out, DisplayAll(l.linkDirs),
                  DisplayAll(Compilation.LinkFiles(l.compile)), DisplayAll(l.links), l.flags);
  }

  /** The `i`-th displayed object of a compilation is its `i`-th file's object, displayed. */
  lemma ObjectDisplayed(c: Compilation.CompileCommand, i: nat)
    requires i < |c.files|
    ensures |DisplayAll(Compilation.LinkFiles(c))| == |c.files|
    ensures DisplayAll(Compilation.LinkFiles(c))[i] == Display(c.files[i].out)
  {
  }

  /** Every object file of the compilation is passed, in file order, right after the
      library directories: the `i`-th one `i` places after them, whatever the artifact. */
  lemma LinkArgsPassObject(l: LinkerCommand, out: string, i: nat)
    requires CanBuild(l) && i < |l.compile.files|
    ensures var args := LinkArgs(l, out);
            var d := |HeaderArgs(l.linker, l.binType, out)| + |DirArgs(l.linker, DisplayAll(l.linkDirs))|;
            && |args| >= d + |l.compile.files|
            && args[d + i] == Display(l.compile.files[i].out)
  {
    ArgListObjectAt(l.linker, l.binType, out, DisplayAll(l.linkDirs),
                    DisplayAll(Compilation.LinkFiles(l.compile)), DisplayAll(l.links), l.flags, i);
    ObjectDisplayed(l.compile, i);
  }

  /** What `run` does: nothing, a panic where `build_command` reaches `todo!()`, or one
      spawned process. */
  datatype LinkStep = UpToDate | Unsupported | Spawn(inv: Invocation)

  /** `run`: nothing when the artifact is fresh; otherwise `build_command`'s invocation,
      whose outcome is ignored, unless the linker or the shared-library switch is missing. */
  function LinkRun(l: LinkerCommand, os: OS, fs: FileSystem): (step: LinkStep)
    ensures step == UpToDate <==> !ShouldRerun(l, fs)
    ensures step == Unsupported <==> ShouldRerun(l, fs) && !CanBuild(l)
    ensures step.Spawn? ==>
              && Driver(l.linker, l.binType).Some?
              && step.inv.program == Driver(l.linker, l.binType).value
              && step.inv.cwd == l.compile.workingDirectory
              && step.inv.args == LinkArgs(l, Display(OutputPath(l, os)))
  {
    if !ShouldRerun(l, fs) then UpToDate
    else
      match Driver(l.linker, l.binType)
      case None => Unsupported
      case Some(program) =>
        if l.binType == DynamicLib && SharedFlag(l.linker).None? then Unsupported
        else Spawn(Invocation(program, LinkArgs(l, Display(OutputPath(l, os))), l.compile.workingDirectory))
  }

  /** The default tool on each host builds executables and static libraries; only the
      Windows default also builds shared libraries. */
  lemma DefaultLinkerSupport(l: LinkerCommand, os: OS)
    requires l.linker == DefaultLinker(os)
    ensures l.binType != DynamicLib ==> CanBuild(l)
    ensures l.binType == DynamicLib ==> (CanBuild(l) <==> os == Windows)
  {
  }
}
