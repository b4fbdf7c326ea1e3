/**
 * The compile-commands renderer (src/generator/mod.rs and
 * `CompileCommand::args` in src/compiler/mod.rs): one JSON object per source
 * file, in file order, inside a bracketed array. How a path is written inside
 * the JSON (Rust's `{:?}` formatting of a `PathBuf`) is the parameter `q`.
 * Whatever compiler the command uses, the arguments are spelled the GCC way.
 */
module CompileDb {
  import opened Base
  import opened Paths
  import opened Compilation
  import opened CompileFlags

  /** A JSON string literal for text that needs no escaping. */
  function Quote(s: string): string {
    "\"" + s + "\""
  }

  /** Every item quoted, in order. */
  function QuoteAll(items: seq<string>): (quoted: seq<string>)
    ensures |quoted| == |items|
    ensures forall i :: 0 <= i < |items| ==> quoted[i] == Quote(items[i])
  {
    seq(|items|, i requires 0 <= i < |items| => Quote(items[i]))
  }

  /** Quoting distributes over concatenation. */
  lemma QuoteAllAppend(a: seq<string>, b: seq<string>)
    ensures QuoteAll(a + b) == QuoteAll(a) + QuoteAll(b)
  {
  }

  /** The items joined with `sep` between neighbours. */
  function JoinWith(items: seq<string>, sep: string): string
    decreases |items|
  {
    if |items| == 0 then ""
    else if |items| == 1 then items[0]
    else JoinWith(items[..|items| - 1], sep) + sep + items[|items| - 1]
  }

  /** Every item preceded by `sep`. */
  function Prefixed(items: seq<string>, sep: string): string
    decreases |items|
  {
    if |items| == 0 then "" else Prefixed(items[..|items| - 1], sep) + sep + items[|items| - 1]
  }

  lemma {:induction false} PrefixedAppend(a: seq<string>, b: seq<string>, sep: string)
    ensures Prefixed(a + b, sep) == Prefixed(a, sep) + Prefixed(b, sep)
    decreases |b|
  {
    if |b| > 0 {
      var b' := b[..|b| - 1];
      PrefixedAppend(a, b', sep);
      assert (a + b)[..|a + b| - 1] == a + b';
    } else {
      assert a + b == a;
    }
  }

  /** Joining a nonempty list and then more items puts `sep` before each added item. */
  lemma {:induction false} JoinWithAppend(a: seq<string>, b: seq<string>, sep: string)
    requires |a| > 0
    ensures JoinWith(a + b, sep) == JoinWith(a, sep) + Prefixed(b, sep)
    decreases |b|
  {
    if |b| > 0 {
      var b' := b[..|b| - 1];
      JoinWithAppend(a, b', sep);
      assert (a + b)[..|a + b| - 1] == a + b';
    } else {
      assert a + b == a;
    }
  }

  /** One JSON object member. */
  function Member(key: string, value: string): string {
    Quote(key) + ": " + value
  }

  /** A compile-commands entry with its four members in the order the renderer
      writes them. */
  function Entry(directory: string, file: string, output: string, arguments: seq<string>): (r: string)
    ensures |r| >= 15 + |directory|
    ensures r[..14] == "{\"directory\": " && r[14..14 + |directory|] == directory
    ensures r[|r| - 2..] == "]}"
  {
    "{" + Member("directory", directory) + "," + Member("file", file) + "," + Member("output", output)
    + "," + Member("arguments", "[" + JoinWith(arguments, ", ") + "]") + "}"
  }

  /** The debug option as the renderer spells it. */
  function JsonDebugFlag(debug: Option<string>): (flag: Option<string>)
    ensures flag.Some? <==> debug.Some?
    ensures flag.Some? ==> flag.value == "-g" + debug.value
  {
    match debug
    case None => None
    case Some(d) => Some("-g" + d)
  }

  /** The quoted single-token options: optimisation, debug, standard. */
  function JsonOptionTokens(cmd: CompileCommand): seq<string> {
    QuoteAll(OptionToSeq(OptFlag(Gcc, cmd.optimizationLevel))
             + OptionToSeq(JsonDebugFlag(cmd.debug))
             + OptionToSeq(StdFlag(Gcc, cmd.std)))
  }

  /** `-I` and the quoted path for every include, in order. */
  function JsonIncludeTokens(dirs: seq<Path>, q: Path -> string): (toks: seq<string>)
    ensures |toks| == 2 * |dirs|
    ensures forall i :: 0 <= i < |dirs| ==> toks[2 * i] == Quote("-I") && toks[2 * i + 1] == q(dirs[i])
    decreases |dirs|
  {
    if |dirs| == 0 then []
    else JsonIncludeTokens(dirs[..|dirs| - 1], q) + [Quote("-I"), q(dirs[|dirs| - 1])]
  }

  /** A quoted `-D` token per definition, in order. */
  function JsonDefinitionTokens(defs: seq<string>): (toks: seq<string>)
    ensures |toks| == |defs|
    ensures forall i :: 0 <= i < |defs| ==> toks[i] == Quote("-D" + defs[i])
    decreases |defs|
  {
    if |defs| == 0 then []
    else JsonDefinitionTokens(defs[..|defs| - 1]) + [Quote("-D" + defs[|defs| - 1])]
  }

  /** The array items that follow the output path in an entry. */
  function JsonArgTokens(cmd: CompileCommand, q: Path -> string): seq<string> {
    JsonOptionTokens(cmd) + JsonIncludeTokens(cmd.includes, q) + JsonDefinitionTokens(cmd.definitions)
  }

  /** The whole `arguments` array of the entry for one file. */
  function ArgumentArray(cmd: CompileCommand, f: CompilationFile, q: Path -> string): (r: seq<string>)
    ensures |r| == 5 + |JsonArgTokens(cmd, q)|
    ensures r[0] == Quote(CompilerName(cmd.compiler, cmd.lang))
    ensures r[1..5] == [Quote("-c"), q(f.src), Quote("-o"), q(f.out)]
    ensures r[5..] == JsonArgTokens(cmd, q)
  {
    [Quote(CompilerName(cmd.compiler, cmd.lang)), Quote("-c"), q(f.src), Quote("-o"), q(f.out)]
    + JsonArgTokens(cmd, q)
  }

  // `args`, piece by piece as the source appends them

  /** The text `args` appends for one optional flag: nothing, or `, ` and the quoted flag. */
  function OptionPiece(flag: Option<string>): string {
    match flag
    case None => ""
    case Some(f) => ", " + Quote(f)
  }

  /** `CompileCommand::args`; a configured target reaches `todo!()`, which is `None`. */
  function Args(cmd: CompileCommand, q: Path -> string): (args: Option<string>)
    ensures args.None? <==> cmd.target.Some?
    ensures args.Some? ==> args.value == Prefixed(JsonArgTokens(cmd, q), ", ")
  {
    if cmd.target.Some? then None
    else
      ArgsArePrefixedTokens(cmd, q);
      Some(OptionPieces(cmd) + IncludePieces(cmd.includes, q) + DefinitionPieces(cmd.definitions))
  }

  /** The text `args` appends for one optional flag is that flag, quoted, after `, `. */
  lemma OptionPieceIsPrefixed(flag: Option<string>)
    ensures OptionPiece(flag) == Prefixed(QuoteAll(OptionToSeq(flag)), ", ")
  {
    if flag.Some? {
      var one := QuoteAll(OptionToSeq(flag));
      assert one == [Quote(flag.value)];
      assert one[..0] == [];
    }
  }

  /** `Prefixed` of a list grown by one item. */
  lemma PrefixedSnoc(xs: seq<string>, x: string, sep: string)
    ensures Prefixed(xs + [x], sep) == Prefixed(xs, sep) + sep + x
  {
    SnocParts(xs, x);
  }

  /** The text the include loop of `args` appends: every include item after `, `. */
  function IncludePieces(dirs: seq<Path>, q: Path -> string): (text: string)
    ensures text == Prefixed(JsonIncludeTokens(dirs, q), ", ")
    decreases |dirs|
  {
    if |dirs| == 0 then ""
    else
      var init := dirs[..|dirs| - 1];
      var d := dirs[|dirs| - 1];
      var prev := JsonIncludeTokens(init, q);
      var p := IncludePieces(init, q);
      PairConcat(Quote("-I"), q(d));
      AppendAssoc(prev, [Quote("-I")], [q(d)]);
      PrefixedSnoc(prev, Quote("-I"), ", ");
      PrefixedSnoc(prev + [Quote("-I")], q(d), ", ");
      AppendAssoc(p + ", ", Quote("-I") + ", ", q(d));
      AppendAssoc(p + ", ", Quote("-I"), ", ");
      AppendAssoc(p, ", ", Quote("-I"));
      p + ", " + (Quote("-I") + ", " + q(d))
  }

  /** The text the definition loop of `args` appends: every definition item after `, `. */
  function DefinitionPieces(defs: seq<string>): (text: string)
    ensures text == Prefixed(JsonDefinitionTokens(defs), ", ")
    decreases |defs|
  {
    if |defs| == 0 then ""
    else
      var init := defs[..|defs| - 1];
      PrefixedSnoc(JsonDefinitionTokens(init), Quote("-D" + defs[|defs| - 1]), ", ");
      DefinitionPieces(init) + ", " + Quote("-D" + defs[|defs| - 1])
  }

  /** The text `args` writes for the single-token options: their quoted items, each
      after `, `. */
  function OptionPieces(cmd: CompileCommand): (text: string)
    ensures text == Prefixed(JsonOptionTokens(cmd), ", ")
  {
    var o := OptionToSeq(OptFlag(Gcc, cmd.optimizationLevel));
    var g := OptionToSeq(JsonDebugFlag(cmd.debug));
    var s := OptionToSeq(StdFlag(Gcc, cmd.std));
    OptionPieceIsPrefixed(OptFlag(Gcc, cmd.optimizationLevel));
    OptionPieceIsPrefixed(JsonDebugFlag(cmd.debug));
    OptionPieceIsPrefixed(StdFlag(Gcc, cmd.std));
    QuoteAllAppend(o + g, s);
    QuoteAllAppend(o, g);
    PrefixedAppend(QuoteAll(o), QuoteAll(g), ", ");
    PrefixedAppend(QuoteAll(o) + QuoteAll(g), QuoteAll(s), ", ");
    OptionPiece(OptFlag(Gcc, cmd.optimizationLevel))
    + (match cmd.debug case None => "" case Some(d) => ", " + Quote("-g" + d))
    + OptionPiece(StdFlag(Gcc, cmd.std))
  }

  /** The whole text `args` builds is every item after the output path, each after `, `. */
  lemma ArgsArePrefixedTokens(cmd: CompileCommand, q: Path -> string)
    ensures OptionPieces(cmd) + IncludePieces(cmd.includes, q) + DefinitionPieces(cmd.definitions)
            == Prefixed(JsonArgTokens(cmd, q), ", ")
  {
    var opts := JsonOptionTokens(cmd);
    var incs := JsonIncludeTokens(cmd.includes, q);
    var defs := JsonDefinitionTokens(cmd.definitions);
    PrefixedAppend(opts, incs, ", ");
    PrefixedAppend(opts + incs, defs, ", ");
  }

  /** Joining a list grown by one item. */
  lemma JoinWithSnoc(xs: seq<string>, x: string, sep: string)
    ensures JoinWith(xs + [x], sep) == if |xs| == 0 then x else JoinWith(xs, sep) + sep + x
  {
    assert (xs + [x])[..|xs|] == xs;
  }

  /** Joining one more item of a list onto the text joined so far. */
  lemma JoinWithExtend(xs: seq<string>, i: nat, sep: string, sofar: string)
    requires i < |xs| && sofar == JoinWith(xs[..i], sep)
    ensures JoinWith(xs[..i + 1], sep) == (if i == 0 then sofar else sofar + sep) + xs[i]
  {
    assert xs[..i + 1] == xs[..i] + [xs[i]];
    JoinWithSnoc(xs[..i], xs[i], sep);
  }

  /** Joining five items. */
  lemma JoinWithFive(a: string, b: string, c: string, d: string, e: string, sep: string)
    ensures JoinWith([a, b, c, d, e], sep) == a + sep + b + sep + c + sep + d + sep + e
  {
    assert [a, b][..1] == [a];
    assert JoinWith([a, b], sep) == a + sep + b;
    assert [a, b, c][..2] == [a, b];
    assert JoinWith([a, b, c], sep) == a + sep + b + sep + c;
    assert [a, b, c, d][..3] == [a, b, c];
    assert JoinWith([a, b, c, d], sep) == a + sep + b + sep + c + sep + d;
    assert [a, b, c, d, e][..4] == [a, b, c, d];
  }

  /** The start of the `arguments` array: compiler, `-c` and the source, `-o` and the
      object, each quoted. */
  function ArgumentHead(cmd: CompileCommand, f: CompilationFile, q: Path -> string): string {
    JoinWith([Quote(CompilerName(cmd.compiler, cmd.lang)), Quote("-c"), q(f.src), Quote("-o"), q(f.out)], ", ")
  }

  /** `ArgumentHead` is the text the source formats after `"arguments": [`. */
  lemma ArgumentHeadText(cmd: CompileCommand, f: CompilationFile, q: Path -> string)
    ensures ArgumentHead(cmd, f, q)
            == "\"" + CompilerName(cmd.compiler, cmd.lang) + "\", " + "\"-c\", " + q(f.src) + ", \"-o\", " + q(f.out)
  {
    var name := CompilerName(cmd.compiler, cmd.lang);
    JoinWithFive(Quote(name), Quote("-c"), q(f.src), Quote("-o"), q(f.out), ", ");
    assert Quote(name) + ", " + Quote("-c") + ", " == "\"" + name + "\", " + "\"-c\", ";
    assert ", " + Quote("-o") + ", " == ", \"-o\", ";
  }

  /** The entry the renderer writes for one file: the root as `directory`, the source as
      `file`, the object as `output`, and the GCC-style `arguments`; `None` when `args`
      panics on a configured target. */
  function GenerateFile(cmd: CompileCommand, root: Path, f: CompilationFile, q: Path -> string): (entry: Option<string>)
    ensures entry.None? <==> cmd.target.Some?
    ensures entry.Some? ==> entry.value == Entry(q(root), q(f.src), q(f.out), ArgumentArray(cmd, f, q))
  {
    match Args(cmd, q)
    case None => None
    case Some(args) =>
      JoinWithAppend([Quote(CompilerName(cmd.compiler, cmd.lang)), Quote("-c"), q(f.src), Quote("-o"), q(f.out)],
                     JsonArgTokens(cmd, q), ", ");
      Some("{" + Member("directory", q(root)) + "," + Member("file", q(f.src)) + "," + Member("output", q(f.out))
           + "," + Member("arguments", "[" + (ArgumentHead(cmd, f, q) + args) + "]") + "}")
  }

  /** The entry of every file, in file order. */
  function Entries(cmd: CompileCommand, root: Path, q: Path -> string): (entries: seq<string>)
    ensures |entries| == |cmd.files|
    ensures forall i :: 0 <= i < |cmd.files| ==>
              entries[i] == Entry(q(root), q(cmd.files[i].src), q(cmd.files[i].out), ArgumentArray(cmd, cmd.files[i], q))
  {
    seq(|cmd.files|, i requires 0 <= i < |cmd.files| =>
      Entry(q(root), q(cmd.files[i].src), q(cmd.files[i].out), ArgumentArray(cmd, cmd.files[i], q)))
  }

  /** The entry rendered for the `i`-th file is the `i`-th of `Entries`. */
  lemma EntryOfFile(cmd: CompileCommand, root: Path, q: Path -> string, i: nat)
    requires i < |cmd.files| && cmd.target.None?
    ensures GenerateFile(cmd, root, cmd.files[i], q) == Some(Entries(cmd, root, q)[i])
  {
  }

  /** `ConfigGenerator::generate`: the entries separated by `, ` between `[` and `]` on
      lines of their own; `None` when some entry panics (a target is configured and
      there is at least one file). */
  method Generate(cmd: CompileCommand, root: Path, q: Path -> string) returns (doc: Option<string>)
    ensures doc.None? <==> |cmd.files| > 0 && cmd.target.Some?
    ensures doc.Some? ==> doc.value == "[\n" + JoinWith(Entries(cmd, root, q), ", ") + "\n]"
  {
    var entries := Entries(cmd, root, q);
    // what follows the opening "[\n" so far
    var body := "";
    var i := 0;
    while i < |cmd.files|
      invariant 0 <= i <= |cmd.files|
      invariant i > 0 ==> cmd.target.None?
      invariant body == JoinWith(entries[..i], ", ")
    {
      ghost var sofar := body;
      if i != 0 {
        body := body + ", ";
      }
      var entry := GenerateFile(cmd, root, cmd.files[i], q);
      if entry.None? {
        return None;
      }
      EntryOfFile(cmd, root, q, i);
      assert entry.value == entries[i];
      JoinWithExtend(entries, i, ", ", sofar);
      body := body + entry.value;
      i := i + 1;
    }
    assert entries[..i] == entries;
    doc := Some("[\n" + body + "\n]");
  }

  /** With no files the document is an empty array on three lines. */
  lemma NoFilesEmptyDocument(cmd: CompileCommand, root: Path, q: Path -> string)
    requires |cmd.files| == 0
    ensures "[\n" + JoinWith(Entries(cmd, root, q), ", ") + "\n]" == "[\n\n]"
  {
    assert "[\n" + "" == "[\n";
  }

  /** The renderer's arguments do not depend on the compiler: MSVC projects get the same
      GCC-style options as GCC ones. */
  lemma JsonArgumentsIgnoreDialect(cmd: CompileCommand, c: Compiler, f: CompilationFile, q: Path -> string)
    ensures JsonArgTokens(cmd.(compiler := c), q) == JsonArgTokens(cmd, q)
    ensures ArgumentArray(cmd.(compiler := c), f, q)[1..] == ArgumentArray(cmd, f, q)[1..]
  {
    var a, b := ArgumentArray(cmd.(compiler := c), f, q), ArgumentArray(cmd, f, q);
    assert a[5..] == b[5..];
    SameAfterFirst(a, b, 5);
  }

  /** Two sequences that agree on `[1..k]` and on `[k..]` agree on everything but the first item. */
  lemma SameAfterFirst(a: seq<string>, b: seq<string>, k: nat)
    requires 1 <= k <= |a| && k <= |b| && a[1..k] == b[1..k] && a[k..] == b[k..]
    ensures a[1..] == b[1..]
  {
    assert a[1..] == a[1..k] + a[k..];
    assert b[1..] == b[1..k] + b[k..];
  }

  /** Quoting the include tokens of a GCC or Clang command line gives the renderer's
      include items, when quoting a path only adds the surrounding quotes. */
  lemma QuotedIncludes(c: Compiler, dirs: seq<Path>, q: Path -> string)
    requires c != Msvc && forall p :: q(p) == Quote(Display(p))
    ensures QuoteAll(IncludeArgs(c, dirs)) == JsonIncludeTokens(dirs, q)
  {
    var quoted := QuoteAll(DisplayAll(dirs));
    PrefixEachUnique(QuoteAll(IncludeArgs(c, dirs)), Quote("-I"), quoted);
    PrefixEachUnique(JsonIncludeTokens(dirs, q), Quote("-I"), quoted);
  }

  /** Quoting the definition tokens of a GCC or Clang command line gives the
      renderer's definition items. */
  lemma QuotedDefinitions(c: Compiler, defs: seq<string>)
    requires c != Msvc
    ensures QuoteAll(DefinitionArgs(c, defs)) == JsonDefinitionTokens(defs)
  {
  }

  /** Without a debug option or a target, quoting the single-token options of a GCC or
      Clang command line gives the renderer's option items. */
  lemma QuotedOptions(cmd: CompileCommand)
    requires cmd.compiler != Msvc && cmd.debug.None? && cmd.target.None?
    ensures QuoteAll(OptionTokens(cmd)) == JsonOptionTokens(cmd)
  {
    OptFlagGnuInjective(cmd.compiler, O0, O0);
    if cmd.optimizationLevel.Some? {
      OptFlagGnuInjective(cmd.compiler, cmd.optimizationLevel.value, cmd.optimizationLevel.value);
    }
    assert StdFlag(cmd.compiler, cmd.std) == StdFlag(Gcc, cmd.std);
  }

  /** The three groups together: the quoted flag tokens are the renderer's items after
      the output path. */
  lemma QuotedFlagTokens(cmd: CompileCommand, q: Path -> string)
    requires cmd.compiler != Msvc && cmd.debug.None? && cmd.target.None?
    requires forall p :: q(p) == Quote(Display(p))
    ensures QuoteAll(FlagTokens(cmd)) == JsonArgTokens(cmd, q)
  {
    var opts := OptionTokens(cmd);
    var incs := IncludeArgs(cmd.compiler, cmd.includes);
    var defs := DefinitionArgs(cmd.compiler, cmd.definitions);
    assert FlagTokens(cmd) == opts + incs + defs;
    QuotedOptions(cmd);
    QuotedIncludes(cmd.compiler, cmd.includes, q);
    QuotedDefinitions(cmd.compiler, cmd.definitions);
    QuoteAllAppend(opts + incs, defs);
    QuoteAllAppend(opts, incs);
  }

  /** A GCC or Clang command line is the driver, `-c` and the source, `-o` and the object,
      then the flag tokens. */
  lemma CompileArgsSplit(cmd: CompileCommand, f: CompilationFile)
    requires cmd.compiler != Msvc
    ensures [CompileInvocation(cmd, f).program] + CompileInvocation(cmd, f).args
            == [CompilerName(cmd.compiler, cmd.lang), "-c", Display(f.src), "-o", Display(f.out)] + FlagTokens(cmd)
  {
    var inv := CompileInvocation(cmd, f);
    var head := ["-c", Display(f.src), "-o", Display(f.out)];
    TakeDropJoin(inv.args, 4);
    AppendAssoc([inv.program], head, FlagTokens(cmd));
    ConsFour(inv.program, "-c", Display(f.src), "-o", Display(f.out));
  }

  /** For GCC and Clang, with no debug option and no target, and when quoting a path only
      adds the surrounding quotes, an entry's `arguments` are exactly the quoted program
      and arguments of the command line that compiles the file. */
  lemma JsonMatchesCommandLine(cmd: CompileCommand, f: CompilationFile, q: Path -> string)
    requires cmd.compiler != Msvc && cmd.debug.None? && cmd.target.None?
    requires forall p :: q(p) == Quote(Display(p))
    ensures var inv := CompileInvocation(cmd, f);
            ArgumentArray(cmd, f, q) == QuoteAll([inv.program] + inv.args)
  {
    var head := [CompilerName(cmd.compiler, cmd.lang), "-c", Display(f.src), "-o", Display(f.out)];
    CompileArgsSplit(cmd, f);
    QuotedFlagTokens(cmd, q);
    QuoteAllAppend(head, FlagTokens(cmd));
    QuoteAllFive(CompilerName(cmd.compiler, cmd.lang), "-c", Display(f.src), "-o", Display(f.out));
    assert q(f.src) == Quote(Display(f.src)) && q(f.out) == Quote(Display(f.out));
  }

  /** Quoting five items. */
  lemma QuoteAllFive(a: string, b: string, c: string, d: string, e: string)
    ensures QuoteAll([a, b, c, d, e]) == [Quote(a), Quote(b), Quote(c), Quote(d), Quote(e)]
  {
  }

  /** The debug option is spelled differently in the two outputs: the renderer writes
      `-g` followed by it, the command line passes it as it was given. */
  lemma DebugSpelledDifferently(cmd: CompileCommand, q: Path -> string, d: string)
    requires cmd.debug == Some(d) && cmd.optimizationLevel.None?
    ensures |JsonArgTokens(cmd, q)| > 0 && JsonArgTokens(cmd, q)[0] == Quote("-g" + d)
    ensures |FlagTokens(cmd)| > 0 && FlagTokens(cmd)[0] == d
  {
    assert OptionTokens(cmd)[0] == d;
    assert JsonOptionTokens(cmd)[0] == Quote("-g" + d);
  }
}
