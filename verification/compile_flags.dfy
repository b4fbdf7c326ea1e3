/**
 * Flag translation and argument assembly for one compilation
 * (src/compiler/mod.rs, `src_file` through `build_command_for_file`).
 * An option a compiler has no spelling for yields no token; the warning the
 * source logs is not modelled.
 */
module CompileFlags {
  import opened Base
  import opened Paths
  import opened Env
  import opened Compilation

  /** The first character every dialect-specific flag starts with. */
  function FlagLead(c: Compiler): char {
    if c == Msvc then '/' else '-'
  }

  /** `opt_level`. */
  function OptFlag(c: Compiler, level: Option<OptimizationLevel>): (flag: Option<string>)
    ensures flag.Some? <==> level.Some?
    ensures flag.Some? ==> |flag.value| >= 2 && flag.value[0] == FlagLead(c)
  {
    match level
    case None => None
    case Some(l) =>
      if c == Msvc then
        Some(match l
             case O3 => "/O2"
             case O2 => "/O2"
             case O1 => "/O1"
             case O0 => "/Od"
             case Fast => "/Ot"
             case Small => "/Os")
      else
        Some(match l
             case O3 => "-O3"
             case O2 => "-O2"
             case O1 => "-O1"
             case O0 => "-O0"
             case Fast => "-OFast"
             case Small => "-Os")
  }

  /** GCC and Clang spell every level differently. */
  lemma OptFlagGnuInjective(c: Compiler, l1: OptimizationLevel, l2: OptimizationLevel)
    requires c != Msvc
    ensures OptFlag(c, Some(l1)) == OptFlag(c, Some(l2)) <==> l1 == l2
    ensures OptFlag(c, Some(l1)) == OptFlag(Gcc, Some(l1))
  {
  }

  /** MSVC has no distinct `O3`: it and `O2` both become `/O2`; every other pair differs. */
  lemma OptFlagMsvcMergesO3(l1: OptimizationLevel, l2: OptimizationLevel)
    ensures OptFlag(Msvc, Some(l1)) == OptFlag(Msvc, Some(l2))
            <==> l1 == l2 || (l1 in {O3, O2} && l2 in {O3, O2})
  {
  }

  /** Three table cells, as the code spells them. */
  lemma OptFlagExamples()
    ensures OptFlag(Msvc, Some(O3)) == Some("/O2")
    ensures OptFlag(Gcc, Some(Fast)) == Some("-OFast")
    ensures OptFlag(Clang, None) == None
  {
  }

  /** `debuger`: the debug option is passed through as it was given. */
  function DebugFlag(debug: Option<string>): (flag: Option<string>)
    ensures flag.Some? <==> debug.Some?
    ensures flag.Some? ==> flag.value == debug.value
  {
    debug
  }

  /** `lang_std`: MSVC has no C99 switch, so that request yields nothing. */
  function StdFlag(c: Compiler, std: Option<Std>): (flag: Option<string>)
    ensures flag.Some? <==> std.Some? && !(c == Msvc && std == Some(C99))
    ensures flag.Some? ==> |flag.value| > 0 && flag.value[0] == FlagLead(c)
    ensures std == Some(C11) ==> flag == Some(if c == Msvc then "/std:c11" else "-std=c11")
    ensures c != Msvc && std == Some(C99) ==> flag == Some("-std=c99")
  {
    match std
    case None => None
    case Some(s) =>
      if c == Msvc then
        (match s
         case C99 => None
         case C11 => Some("/std:c11"))
      else
        (match s
         case C99 => Some("-std=c99")
         case C11 => Some("-std=c11"))
  }

  /** `compilation_target`: only Clang takes a target, spelled `--taget=x86-64`. */
  function TargetFlag(c: Compiler, target: Option<Target>): (flag: Option<string>)
    ensures flag.Some? <==> c == Clang && target.Some?
    ensures flag.Some? ==> flag.value == "--taget=x86-64"
  {
    match target
    case None => None
    case Some(X86_64) => if c == Clang then Some("--taget=x86-64") else None
  }

  /** `src_file`: compile-only switch, source, output directive. */
  function SrcFileTokens(c: Compiler, f: CompilationFile): (toks: seq<string>)
    ensures c != Msvc ==> toks == ["-c", Display(f.src), "-o", Display(f.out)]
    ensures c == Msvc ==> toks == ["/c", Display(f.src), "/Fo" + Display(f.out)]
  {
    if c == Msvc then ["/c", Display(f.src), "/Fo" + Display(f.out)]
    else ["-c", Display(f.src), "-o", Display(f.out)]
  }

  /** `definition`: the switch glued to the macro. */
  function DefinitionToken(c: Compiler, def: string): (tok: string)
    ensures |tok| == |def| + 2
    ensures tok[0] == FlagLead(c) && tok[1] == 'D' && tok[2..] == def
  {
    (if c == Msvc then "/D" else "-D") + def
  }

  /** The include tokens for every directory, in order: a switch and a directory each. */
  function IncludeArgs(c: Compiler, dirs: seq<Path>): (toks: seq<string>)
    ensures |toks| == 2 * |dirs|
    ensures forall i :: 0 <= i < |dirs| ==>
              toks[2 * i] == (if c == Msvc then "/I" else "-I") && toks[2 * i + 1] == Display(dirs[i])
  {
    PrefixEach(if c == Msvc then "/I" else "-I", DisplayAll(dirs))
  }

  /** One definition token per macro, in order. */
  function DefinitionArgs(c: Compiler, defs: seq<string>): (toks: seq<string>)
    ensures |toks| == |defs|
    ensures forall i :: 0 <= i < |defs| ==> toks[i] == DefinitionToken(c, defs[i])
    decreases |defs|
  {
    if |defs| == 0 then []
    else DefinitionArgs(c, defs[..|defs| - 1]) + [DefinitionToken(c, defs[|defs| - 1])]
  }

  /** The optional single-token options, in command-line order. */
  function OptionTokens(cmd: CompileCommand): seq<string> {
    OptionToSeq(OptFlag(cmd.compiler, cmd.optimizationLevel))
    + OptionToSeq(DebugFlag(cmd.debug))
    + OptionToSeq(StdFlag(cmd.compiler, cmd.std))
    + OptionToSeq(TargetFlag(cmd.compiler, cmd.target))
  }

  /** Everything after the source and output tokens: the present options, then the
      include tokens (a switch and a directory each), then the definition tokens. */
  function FlagTokens(cmd: CompileCommand): (toks: seq<string>)
    ensures var k := |OptionTokens(cmd)|;
            var n := 2 * |cmd.includes|;
            && |toks| == k + n + |cmd.definitions|
            && toks[..k] == OptionTokens(cmd)
            && toks[k..k + n] == IncludeArgs(cmd.compiler, cmd.includes)
            && toks[k + n..] == DefinitionArgs(cmd.compiler, cmd.definitions)
  {
    var opts := OptionTokens(cmd);
    var incs := IncludeArgs(cmd.compiler, cmd.includes);
    var defs := DefinitionArgs(cmd.compiler, cmd.definitions);
    var toks := opts + incs + defs;
    ThreePieces(toks, opts, incs, defs);
    toks
  }

  /** `build_command_for_file`: the compiler driver, run in the working directory, with
      `/nologo` for MSVC, then source and output, then the option, include and definition
      tokens of `FlagTokens`. */
  function CompileInvocation(cmd: CompileCommand, f: CompilationFile): (inv: Invocation)
    ensures inv.program == CompilerName(cmd.compiler, cmd.lang) && inv.cwd == cmd.workingDirectory
    ensures |inv.args| >= 4 && inv.args[..4] ==
              (if cmd.compiler == Msvc then ["/nologo", "/c", Display(f.src), "/Fo" + Display(f.out)]
               else ["-c", Display(f.src), "-o", Display(f.out)])
    ensures inv.args[4..] == FlagTokens(cmd)
  {
    var src := SrcFileTokens(cmd.compiler, f);
    var head := if cmd.compiler == Msvc then ["/nologo"] + src else src;
    ConsThree("/nologo", "/c", Display(f.src), "/Fo" + Display(f.out));
    var args := head + FlagTokens(cmd);
    SplitAt(args, head, FlagTokens(cmd));
    Invocation(CompilerName(cmd.compiler, cmd.lang), args, cmd.workingDirectory)
  }

  /** MSVC command lines spell every compiler switch with `/`, GCC and Clang ones with `-`:
      the leading switch, and the optimisation and standard tokens when present. */
  lemma CompileDialectIsConsistent(cmd: CompileCommand, f: CompilationFile)
    ensures CompileInvocation(cmd, f).args[0][0] == FlagLead(cmd.compiler)
    ensures cmd.optimizationLevel.Some? ==> CompileInvocation(cmd, f).args[4][0] == FlagLead(cmd.compiler)
  {
    var inv := CompileInvocation(cmd, f);
    if cmd.optimizationLevel.Some? {
      assert inv.args[4..][0] == inv.args[4];
    }
  }
}
