# cbuild planners in Dafny

This project models the decision-making core of `cbuild`, a small Rust library that
drives C and C++ builds. The model covers four parts:

- **Path normalisation** (`Normalize::normalize`): a stack machine over path components.
  It drops `.`. A `..` cancels the normal segment before it and is absorbed directly
  after a root; otherwise it is kept. An empty result becomes `.`.
- **The compilation planner** (`CompileCommandBuilder`, `CompileCommand`):
  - derives each object path: the source is normalised, the object goes under
    `out_dir/obj` with the extension `o`, or `obj` for MSVC;
  - translates options into per-compiler flag tokens;
  - assembles each compiler command line;
  - keeps the files whose object is stale;
  - compiles them in order, failing fast.
- **The link planner** (`LinkerCommandBuilder`, `LinkerCommand`):
  - the artifact extension for each host;
  - the driver and the shared-library switch, both partial;
  - the token forms and their fixed order;
  - the relink decision.
- **The compile-commands renderer** (`ConfigGenerator` together with
  `CompileCommand::args`): one JSON entry per configured file.

## How the model is built

- **Files and modules.**
  - `base.dfy` (`Base`): `Option` and sequence facts.
  - `paths.dfy` (`Paths`): components, the normaliser, and the `PathBuf` operations the
    planners use.
  - `env.dfy` (`Env`): host OS, metadata snapshot, process outcomes, invocations.
  - `compiler.dfy` (`Compilation`): compiler enums, files, builder, `build`.
  - `compile_flags.dfy` (`CompileFlags`): flag tables and the compiler command line.
  - `compile_run.dfy` (`CompileRun`): the staleness filter and the compile loop.
  - `linker.dfy` (`Linking`): the link planner.
  - `compile_db.dfy` (`CompileDb`): the renderer.
- **Paths** are sequences of `Prefix | RootDir | CurDir | ParentDir | Normal(name)`, the
  way `components()` yields them. `join` and `set_extension` are stated on components.
  An absolute path replaces the base when joined. Interior `.` components vanish when
  read back.
- **The filesystem** is a snapshot `map<Path, Metadata>`:
  - a path is a key exactly when `metadata()` succeeds on it;
  - a `None` modification time means `modified()` failed;
  - times are integers.
- **Host and processes.**
  - The host OS, which the source fixes with `#[cfg(target_os)]`, is a parameter.
  - Process results are an input sequence of `SpawnError | Exit(success)`, one per
    stale file.
- **Panics and formatting.**
  - A `todo!()` reached by the source becomes an explicit outcome: `None` from `Args`,
    `GenerateFile` and `Generate`, `Unsupported` from `LinkRun`, `None` from `Driver`
    and `SharedFlag`.
  - Rust's `{:?}` formatting of a path inside the JSON is the uninterpreted parameter
    `q`.
  - A path passed to a command line appears as its display with `/` separators.

## Behaviour of the code worth knowing

- **Compile staleness:** an object exactly as old as its source counts as fresh
  (`CompileRun.EqualTimesAreFresh`).
- **Relink decision:** an object exactly as old as the artifact does not trigger a relink
  (`Linking.UpToDateArtifactIsKept`).
- **Fast optimisation:** the GCC and Clang token is spelled `-OFast`.
- **Clang target:** the token is spelled `--taget=x86-64`.
- **Debug option:**
  - On the command line it is passed verbatim to every compiler, MSVC included.
  - The renderer writes it as `-g` followed by the value
    (`CompileDb.DebugSpelledDifferently`).
- **JSON arguments:**
  - They always use GCC spellings, whatever the compiler (`CompileDb.JsonArgumentsIgnoreDialect`).
  - A configured target makes `args` panic.
  - The `directory` member is the generator's root directory, which may differ from the
    command's working directory.
- **Relink check target:** the relink decision inspects `out_dir/<name>` without the
  artifact extension. The linker writes `out_dir/<name>.<ext>` (`Linking.OutputAndCheckedFile`,
  `Linking.DefaultNameOnLinux`).
- **Linker panics:**
  - The GCC linker has no driver.
  - A shared library with any linker but MSVC's and Clang reaches `todo!()`.
  - Both are `Unsupported` in `LinkRun`.
- **Absolute sources:** joining an absolute source replaces the object directory, so its
  object stays beside the source, outside `out_dir/obj` (`Compilation.ObjectPathOfAbsoluteSource`).

## Model

| member | source | states |
|---|---|---|
| Paths.Step | src/path.rs:15-65 | One loop iteration never puts `.` on the stack and keeps every `..` piled up at the front of what it pushes onto |
| Paths.NormStack | src/path.rs:9-66 | The final stack has no `.`, has `..` only at the start or after a prefix or another `..`, and is no longer than the input |
| Paths.Normalize | src/path.rs:8-80 | The result is never empty; it is `.` alone or a stack in normal form; `.` appears only as the whole result; it is no longer than a nonempty input |
| Paths.NormStackDropsCurDir | src/path.rs:17 | Appending `.` to the input leaves the stack unchanged |
| Paths.NormStackCancelsNormal | src/path.rs:47-50 | `x/a/..` builds the same stack as `x` |
| Paths.NormStackRootAbsorbsParent | src/path.rs:33-34 | A `..` arriving on a root is dropped: the parent of `/` is `/` |
| Paths.NormStackKeepsLeadingParent | src/path.rs:24-57 | A `..` with nothing to cancel (empty stack, prefix or `..` on top) is pushed |
| Paths.NormStackSnoc | src/path.rs:14-66 | Consuming one more component is exactly one `Step` |
| Paths.NormalizeExampleCancel | src/path.rs:14-79 | `a/./b/../c` normalises to `a/c` |
| Paths.NormalizeExampleLeadingParent | src/path.rs:41-57 | `../a/b` normalises to itself |
| Paths.NormalizeExampleRootAndEmpty | src/path.rs:33-71 | `/..` normalises to `/`, and the all-cancelling `a/..` to `.` |
| Paths.NormalFormIsFixed | src/path.rs:14-66 | A stack in normal form is rebuilt unchanged from itself |
| Paths.NormalizeIdempotent | src/path.rs:8-80 | Normalising twice is the same as normalising once |
| Paths.NormalizeFixedPoints | src/path.rs:8-80 | A path is its own normalisation exactly when it is `.` or a nonempty normal form |
| Paths.NormalizeLeavesNoCancellation | src/path.rs:47-50 | No normal segment is directly followed by `..` in a normalised path |
| Paths.NormStackIsSubsequence | src/path.rs:61-64 | The output is made of input components, unchanged and in input order |
| Paths.NormStackKeepsAnchors | src/path.rs:24-64 | Prefixes and roots are never removed: the output has exactly the input's, in order |
| Paths.NormalizeInventsNothing | src/path.rs:61-64 | Every component of the result comes from the input, except the `.` an empty stack becomes |
| Paths.Join | src/compiler/mod.rs:169 | An absolute path replaces the base; otherwise the components are appended, with `.` components dropped |
| Paths.LastDot | src/compiler/mod.rs:170 | The position of the last `.` of a name, or -1 when there is none |
| Paths.Stem | src/compiler/mod.rs:170 | The stem is a prefix of the name, and the whole name exactly when the name has no dot after its first character |
| Paths.Extension | src/compiler/mod.rs:170 | The extension holds no dot; with a dot after the first character the name is stem, dot, extension; otherwise it is empty |
| Paths.WithExtension | src/compiler/mod.rs:170 | The stem is kept; an empty extension leaves the stem alone, any other is added after one dot |
| Paths.WithOwnExtension | src/compiler/mod.rs:170 | Setting a name's own extension gives back the name |
| Paths.WithExtensionRoundTrip | src/compiler/mod.rs:161-162 | After setting a dot-free extension, the stem is unchanged and the extension reads back as set |
| Paths.SetExtension | src/compiler/mod.rs:170 | Only a final normal name is rewritten; every other component, and a path without one, is unchanged |
| Paths.SetExtensionTwice | src/compiler/mod.rs:208-211 | Setting `o` and then `obj` is the same as setting `obj` alone |
| Paths.SetExtensionKeepsShape | src/compiler/mod.rs:170 | Setting an extension keeps a path absolute or relative and adds no `.` component |
| Paths.SetExtensionUnderBase | src/compiler/mod.rs:169-170 | Under a directory, setting the extension acts on the appended part alone |
| Paths.Parent | src/compiler/mod.rs:255 | There is a parent exactly when the last component is not a root or prefix, and the parent plus that component is the path |
| Paths.DisplayAll | src/linker/mod.rs:302-316 | Every path displayed, in order |
| Paths.Segments | src/linker/mod.rs:179 | Splitting at `/` yields pieces without `/` that join back to the input |
| Paths.ParsePath | src/linker/mod.rs:179 | A leading `/` is exactly the root; later components are never roots, prefixes or `.`; names hold no `/`, `.` or `..` |
| Paths.ParsePlainName | src/linker/mod.rs:190-192 | A name without `/` parses to nothing, `.`, `..` or the name as one normal component |
| Paths.Display | src/linker/mod.rs:194-210 | The empty path displays as nothing, and an absolute one starts with `/` |
| Compilation.DefaultCompiler | src/compiler/mod.rs:78-85 | MSVC on Windows, Clang on macOS, GCC on Linux, and nothing else |
| Compilation.CompilerName | src/compiler/mod.rs:87-95 | The driver is `cl` exactly for MSVC |
| Compilation.CompilerNameDistinguishes | src/compiler/mod.rs:87-95 | GCC and Clang drivers differ for every compiler and language pair; MSVC uses one driver for C and C++ |
| Compilation.NewFile | src/compiler/mod.rs:159-164 | The source is the normalised path; the object has the same directory and stem, and extension `o`; a path without a final name is its own object |
| Compilation.SetExtensionReadsBack | src/compiler/mod.rs:161-162 | The object's final name keeps the source's stem and has the new extension |
| Compilation.PrependOutdir | src/compiler/mod.rs:166-172 | The source is kept; an absolute object only gets extension `o`; a relative one moves under the directory with extension `o` |
| Compilation.PrependOutdirPrefixes | src/compiler/mod.rs:166-172 | On an object already named `*.o`, `prepend_outdir` puts the directory in front, and the result is again such an object |
| Compilation.PrependOutdirNests | src/compiler/mod.rs:166-172 | Applying `prepend_outdir` twice nests the directory twice, so it is not idempotent and `build` applies it once |
| Compilation.FinalizeFile | src/compiler/mod.rs:207-212 | The source is kept; the object is the old object joined under the directory, with the compiler's object extension |
| Compilation.FinalizeFiles | src/compiler/mod.rs:207-212 | Every file is finalised, in order |
| Compilation.NormalizeAll | src/compiler/mod.rs:213-216 | Every include is normalised in place, order kept |
| Compilation.NewCompileBuilder | src/compiler/mod.rs:184-203 | Defaults: host compiler, C, no options, no files, includes, definitions or directories, output and working directory `.` |
| Compilation.WithWorkingDir | src/compiler/mod.rs:224-227 | Sets the working directory and nothing else |
| Compilation.WithCompiler | src/compiler/mod.rs:229-232 | Sets the compiler and nothing else |
| Compilation.WithKind | src/compiler/mod.rs:234-237 | Sets the language and nothing else |
| Compilation.WithOptLevel | src/compiler/mod.rs:239-242 | Sets the optimisation level and nothing else |
| Compilation.WithDebug | src/compiler/mod.rs:244-247 | Sets the debug option and nothing else |
| Compilation.WithOutDir | src/compiler/mod.rs:249-252 | Sets the output directory and nothing else |
| Compilation.WithStd | src/compiler/mod.rs:331-334 | Sets the language standard and nothing else |
| Compilation.WithTarget | src/compiler/mod.rs:336-339 | Sets the target and nothing else |
| Compilation.SourceDirs | src/compiler/mod.rs:265-269 | At most one directory per file |
| Compilation.SourceDirsOne | src/compiler/mod.rs:255-257 | One file contributes its source's parent, or nothing when the source has none |
| Compilation.SourceDirsAppend | src/compiler/mod.rs:265-269 | The directories of two lists are those of the first followed by those of the second |
| Compilation.SourceDirsMembers | src/compiler/mod.rs:265-269 | A directory is collected exactly when it is the parent of some file's source |
| Compilation.AddFile | src/compiler/mod.rs:254-261 | Appends the file, appends its source's parent when there is one, and changes nothing else |
| Compilation.AddFiles | src/compiler/mod.rs:263-273 | Appends the files in order and changes only the files and directories |
| Compilation.AddFilesIsRepeatedAddFile | src/compiler/mod.rs:254-273 | `files(fs)` has exactly the effect of `file(f)` for each `f` in turn, directories included |
| Compilation.AddInclude | src/compiler/mod.rs:301-304 | Appends one include and changes nothing else |
| Compilation.AddIncludes | src/compiler/mod.rs:306-309 | Appends the includes in order and changes nothing else |
| Compilation.SetIncludes | src/compiler/mod.rs:311-314 | Replaces the includes and changes nothing else |
| Compilation.AddDefinition | src/compiler/mod.rs:316-319 | Appends one definition and changes nothing else |
| Compilation.AddDefinitions | src/compiler/mod.rs:321-324 | Appends the definitions in order and changes nothing else |
| Compilation.SetDefinitions | src/compiler/mod.rs:326-329 | Replaces the definitions and changes nothing else |
| Compilation.ObjDir | src/compiler/mod.rs:206 | The object directory is the output directory with `obj` appended |
| Compilation.Build | src/compiler/mod.rs:205-222 | File order and sources are kept; each object moves under `out_dir/obj` with the compiler's extension; includes are normalised in order; nothing else changes |
| Compilation.ObjectPathOfRelativeSource | src/compiler/mod.rs:205-212 | A relative source's object is `out_dir/obj/<normalised source>` with its extension replaced by `o`, or `obj` for MSVC |
| Compilation.ObjectPathOfAbsoluteSource | src/compiler/mod.rs:166-172 | An absolute source's object stays beside the source, outside `out_dir` |
| Compilation.ObjectPathOfCancelledSource | src/compiler/mod.rs:159-172 | A source that normalises to `.` gets the object `out_dir/obj.o` (or `obj.obj`) |
| Compilation.ObjectPathExample | src/compiler/mod.rs:205-222 | `a/b/c.c` with output directory `out` compiles to `out/obj/a/b/c.o`, or `out/obj/a/b/c.obj` under MSVC |
| Compilation.LinkFiles | src/compiler/mod.rs:347-349 | Every object path, in file order, stale or not |
| CompileFlags.OptFlag | src/compiler/mod.rs:461-483 | A token exactly when a level is set; it starts with the compiler's switch character |
| CompileFlags.OptFlagGnuInjective | src/compiler/mod.rs:464-471 | GCC and Clang spell every level differently and identically to each other |
| CompileFlags.OptFlagMsvcMergesO3 | src/compiler/mod.rs:472-479 | MSVC gives two levels the same token exactly when they are `O3` and `O2` |
| CompileFlags.OptFlagExamples | src/compiler/mod.rs:461-483 | MSVC `O3` is `/O2`; GCC fast is `-OFast`; no level gives no token |
| CompileFlags.DebugFlag | src/compiler/mod.rs:485-490 | A token exactly when a debug option is set, and it is that option verbatim |
| CompileFlags.StdFlag | src/compiler/mod.rs:492-510 | A token unless no standard is set or MSVC is asked for C99; the exact C11 and C99 spellings |
| CompileFlags.TargetFlag | src/compiler/mod.rs:512-526 | A token exactly for Clang with a target, and it is `--taget=x86-64` |
| CompileFlags.SrcFileTokens | src/compiler/mod.rs:441-459 | `-c src -o out` for GCC and Clang, `/c src /Fo<out>` for MSVC |
| CompileFlags.DefinitionToken | src/compiler/mod.rs:537-546 | The compiler's switch character, `D`, then the macro text unchanged |
| CompileFlags.IncludeArgs | src/compiler/mod.rs:528-535 | A switch (`-I` or `/I`) and the directory for every include, in order |
| CompileFlags.DefinitionArgs | src/compiler/mod.rs:575-578 | One `-D<name>` or `/D<name>` token per definition, in order |
| CompileFlags.FlagTokens | src/compiler/mod.rs:557-578 | The present options first, then the include pairs, then the definitions, each group in place |
| CompileFlags.CompileInvocation | src/compiler/mod.rs:548-580 | Driver and working directory; `/nologo` first for MSVC, then source and output, then the flag tokens |
| CompileFlags.CompileDialectIsConsistent | src/compiler/mod.rs:441-483 | The first switch and the optimisation token use `/` for MSVC and `-` for GCC and Clang |
| CompileRun.IsModified | src/compiler/mod.rs:419-436 | Stale exactly when the object is missing, either metadata or time is unreadable, or the object is strictly older |
| CompileRun.ModifiedFiles | src/compiler/mod.rs:416-439 | Exactly the stale files, as a subsequence of the files in order |
| CompileRun.ModifiedFilesOne | src/compiler/mod.rs:416-439 | A single file is kept exactly when it is stale |
| CompileRun.ModifiedFilesAppend | src/compiler/mod.rs:416-439 | The filter distributes over concatenation, so every copy of a stale file is kept in place |
| CompileRun.WriteObjects | src/compiler/mod.rs:620-646 | Every object is written with the given time; every other existing path keeps its metadata |
| CompileRun.BuiltFileIsFresh | src/compiler/mod.rs:419-436 | A file whose object was written no earlier than its source's time, and not over it, is not stale |
| CompileRun.EqualTimesAreFresh | src/compiler/mod.rs:427-431 | An object exactly as old as its source is not rebuilt |
| CompileRun.NothingStaleAfterBuild | src/compiler/mod.rs:416-439 | After writing every object at a time no earlier than every source, with no object written over a source, nothing is stale |
| CompileRun.TouchingASourceMarksOnlyItsFile | src/compiler/mod.rs:416-439 | Making one source newer than its object makes that file stale and leaves unrelated files as they were |
| CompileRun.Plan | src/compiler/mod.rs:624-625 | One compiler invocation per stale file, in order |
| CompileRun.RunPlan | src/compiler/mod.rs:624-645 | Runs in order; reports `Aborted` exactly when some compiler exits unsuccessfully, stops right after the first such one, and skips spawn errors |
| CompileRun.Run | src/compiler/mod.rs:620-646 | Attempts the stale files' invocations in order and stops at the first unsuccessful exit; `Success` means every stale file was attempted |
| Linking.DefaultLinker | src/linker/mod.rs:25-32 | MSVC's linker on Windows, LLVM's on macOS, `ld` on Linux |
| Linking.NewLinkerBuilder | src/linker/mod.rs:54-67 | Defaults: an executable named `a.exe`, the host linker, no libraries, directories or flags, no system libraries |
| Linking.BuildLinker | src/linker/mod.rs:69-71 | `build` returns the staged command unchanged |
| Linking.WithBinType | src/linker/mod.rs:73-76 | Sets the artifact kind and nothing else |
| Linking.WithLinkSysDefault | src/linker/mod.rs:78-81 | Sets the system-libraries flag and nothing else |
| Linking.WithName | src/linker/mod.rs:83-86 | Sets the name and nothing else |
| Linking.WithLinker | src/linker/mod.rs:88-91 | Sets the linker and nothing else |
| Linking.AddLink | src/linker/mod.rs:93-97 | Appends the normalised library and changes nothing else |
| Linking.AddLinks | src/linker/mod.rs:99-106 | Keeps the existing libraries and appends every new one normalised, in order |
| Linking.SetLinks | src/linker/mod.rs:108-115 | Replaces the libraries by the normalised list, in order |
| Linking.AddLinksIsRepeatedAddLink | src/linker/mod.rs:93-106 | `links(ls)` has exactly the effect of `link(l)` for each `l` in turn |
| Linking.AddLinkDir | src/linker/mod.rs:117-120 | Appends the directory as given and changes nothing else |
| Linking.AddLinkDirs | src/linker/mod.rs:122-126 | Appends the directories as given, in order |
| Linking.SetLinkDirs | src/linker/mod.rs:128-132 | Replaces the directories |
| Linking.AddFlag | src/linker/mod.rs:134-137 | Appends one raw flag and changes nothing else |
| Linking.AddFlags | src/linker/mod.rs:139-146 | Appends the raw flags in order |
| Linking.SetFlags | src/linker/mod.rs:148-155 | Replaces the raw flags |
| Linking.ExecExt | src/linker/mod.rs:212-233 | The extension is empty exactly for executables off Windows, and never contains a dot |
| Linking.ExecExtDistinguishesKinds | src/linker/mod.rs:212-233 | On every host, different artifact kinds get different extensions; macOS and Linux agree |
| Linking.PlainNameJoins | src/linker/mod.rs:178-192 | A plain name joins under a directory as one component, with or without an extension set on it |
| Linking.OutputPath | src/linker/mod.rs:178-180 | For a plain name, the artifact is `out_dir` plus the name with the artifact extension set |
| Linking.OutFile | src/linker/mod.rs:190-192 | For a plain name, the checked file is `out_dir` plus the name as it is |
| Linking.OutputAndCheckedFile | src/linker/mod.rs:178-192 | For a plain name, the artifact written is the checked file with the artifact extension set, and the two coincide exactly when that leaves the name unchanged |
| Linking.DefaultNameOnLinux | src/linker/mod.rs:178-192 | With the default name on Linux the executable written is `out_dir/a`, while staleness is judged on `out_dir/a.exe` |
| Linking.AnyObjectForcesRerun | src/linker/mod.rs:245-257 | True exactly when some object is missing, has no readable time, or is strictly newer than the artifact |
| Linking.ShouldRerun | src/linker/mod.rs:235-259 | Relink exactly when the checked file is missing or has no readable time, or some object forces it |
| Linking.UpToDateArtifactIsKept | src/linker/mod.rs:235-259 | An artifact no older than every object is not relinked, equal times included |
| Linking.NewerObjectForcesRelink | src/linker/mod.rs:245-250 | One object newer than the artifact is enough to relink |
| Linking.Driver | src/linker/mod.rs:269-279 | No driver exactly for GCC; MSVC's and Clang's choice depends on whether a static library is built |
| Linking.SharedFlag | src/linker/mod.rs:281-287 | A switch only for MSVC's linker (`/DLL`) and Clang (`-shared`) |
| Linking.OutTokens | src/linker/mod.rs:178-188 | `/OUT:<out>` for MSVC's linker, `-o <out>` for the others |
| Linking.DirArgs | src/linker/mod.rs:302-306 | One token per directory for MSVC's linker, two for the others |
| Linking.DirArgsTokens | src/linker/mod.rs:203-210 | Each directory is `/LIBPATH:<dir>`, or `-L` and the directory, in order |
| Linking.LibArgs | src/linker/mod.rs:310-314 | One token per library for MSVC's linker, two for the others |
| Linking.LibArgsTokens | src/linker/mod.rs:194-201 | Each library is passed as is to MSVC's linker, or as `-l` and the library, in order |
| Linking.HeaderArgs | src/linker/mod.rs:289-301 | The shared switch only for shared libraries, `/nologo` only for MSVC's linker, then the output directive |
| Linking.ArgList | src/linker/mod.rs:289-319 | The list is as long as the header, directory, object, library and raw-flag tokens together |
| Linking.ArgListLayout | src/linker/mod.rs:289-319 | Header, directory tokens, objects, library tokens and raw flags each sit in place, in that order |
| Linking.ArgListObjectAt | src/linker/mod.rs:307-309 | The i-th object is i places after the directory tokens |
| Linking.LinkArgsPassObject | src/linker/mod.rs:307-309 | Every object of the compilation is passed, in file order, right after the directory tokens |
| Linking.LinkArgs | src/linker/mod.rs:289-319 | One token per object of the compilation, beside the header, directory, library and flag tokens |
| Linking.LinkArgsEnds | src/linker/mod.rs:289-319 | The list opens with the header and ends with the raw flags as given |
| Linking.LinkRun | src/linker/mod.rs:321-336 | Nothing when not stale; `Unsupported` exactly when stale and a `todo!()` is reached; otherwise one invocation with the driver, working directory and argument list |
| Linking.DefaultLinkerSupport | src/linker/mod.rs:269-287 | Each host's default linker builds executables and static libraries; only Windows' also builds shared libraries |
| CompileDb.JsonDebugFlag | src/compiler/mod.rs:384-387 | The renderer writes the debug option as `-g` followed by it |
| CompileDb.JsonIncludeTokens | src/compiler/mod.rs:403-406 | A quoted `-I` and the quoted path for every include, in order |
| CompileDb.JsonDefinitionTokens | src/compiler/mod.rs:408-411 | A quoted `-D<name>` per definition, in order |
| CompileDb.Args | src/compiler/mod.rs:367-414 | `None` exactly when a target is set; otherwise every item after the output path, each preceded by `, ` |
| CompileDb.OptionPieceIsPrefixed | src/compiler/mod.rs:369-382 | The text for one optional flag is that flag, quoted, after `, ` |
| CompileDb.OptionPieces | src/compiler/mod.rs:369-397 | The text for the optimisation, debug and standard options is their quoted items, each after `, ` |
| CompileDb.IncludePieces | src/compiler/mod.rs:403-406 | The include loop's text is the include items, each after `, ` |
| CompileDb.DefinitionPieces | src/compiler/mod.rs:408-411 | The definition loop's text is the definition items, each after `, ` |
| CompileDb.ArgsArePrefixedTokens | src/compiler/mod.rs:367-414 | The whole text `args` builds is every item after the output path, each after `, ` |
| CompileDb.ArgumentHeadText | src/generator/mod.rs:23-28 | The array head is the quoted driver, `"-c"`, the source, `"-o"` and the object, joined by `, ` |
| CompileDb.Entry | src/generator/mod.rs:17-32 | An entry opens with the `directory` member holding the root text and closes the arguments array and the object |
| CompileDb.ArgumentArray | src/generator/mod.rs:23-29 | The quoted driver, `"-c"`, the source, `"-o"`, the object, then the items `args` produces |
| CompileDb.GenerateFile | src/generator/mod.rs:17-34 | `None` exactly when a target is set; otherwise the entry with root, source, object and arguments |
| CompileDb.Entries | src/generator/mod.rs:40-46 | Exactly one entry per configured file, in file order |
| CompileDb.EntryOfFile | src/generator/mod.rs:40-46 | The entry rendered for the i-th file is the i-th entry |
| CompileDb.Generate | src/generator/mod.rs:36-50 | `None` exactly when there are files and a target; otherwise `[`, newline, the entries joined by `, `, newline, `]` |
| CompileDb.NoFilesEmptyDocument | src/generator/mod.rs:36-50 | With no files the document is `[`, two newlines, `]` |
| CompileDb.JsonArgumentsIgnoreDialect | src/compiler/mod.rs:367-414 | The JSON items after the output path, and the whole arguments array after the driver, do not depend on the compiler |
| CompileDb.QuotedIncludes | src/compiler/mod.rs:403-406 | For GCC and Clang, the quoted include tokens of the command line are the JSON include items |
| CompileDb.QuotedDefinitions | src/compiler/mod.rs:408-411 | For GCC and Clang, the quoted definition tokens are the JSON definition items |
| CompileDb.QuotedOptions | src/compiler/mod.rs:369-397 | For GCC and Clang without debug or target, the quoted option tokens are the JSON option items |
| CompileDb.QuotedFlagTokens | src/compiler/mod.rs:367-414 | For GCC and Clang without debug or target, the quoted flag tokens are the JSON items after the output path |
| CompileDb.CompileArgsSplit | src/compiler/mod.rs:548-580 | A GCC or Clang command line is the driver, `-c` and the source, `-o` and the object, then the flag tokens |
| CompileDb.JsonMatchesCommandLine | src/generator/mod.rs:17-34 | For GCC and Clang without debug or target, an entry's arguments are the quoted command line that compiles the file |
| CompileDb.DebugSpelledDifferently | src/compiler/mod.rs:384-387 | With a debug option, the JSON has `-g` before it while the command line passes it verbatim |

## Left out

- `CompileCommandBuilder::dir` (recursive directory listing) and `try_create_out_dir` (directory creation): filesystem traversal and creation. Only the effect of `file` and `files` is modelled.
- `set_files`: it panics with `unimplemented!()` before doing anything.
- `CompileCommand::normalize_paths`: never called; it duplicates `normalize_path`.
- `gen_compiler_commands_json`: a stub that returns an empty string.
- `get_sys_deafault_libs`: empty and unused. The `link_sys_deafult` flag is stored but never read.
- The plain getters (`files`, `working_dir`, `out_dir`, `src`, `out`), the `Into<CompilationFile>` conversions and the `Display`/`Debug` impls of `CompilationFile`: field reads and formatting.
- Process spawning, `Stdio::inherit`, `println!` progress and `tracing` spans and events: I/O and logging. Process results are inputs, and warnings are absent tokens.
- `#[cfg(target_os)]` selection: the host OS is a parameter.
- Rust's `{:?}` quoting of paths: a foreign formatter, kept as the uninterpreted parameter `q`.
- Paths.Join: stated on components; Windows prefix-relative joins and the string-level internals of `PathBuf::push` are not modelled.
- Paths.ParsePath: only `/` separates, and no Windows prefix is recognised. It reads only the artifact name, which the linker turns into a path.
- Paths.Display: renders the component list with `/` on every host, so it is not the OS string of the path as configured. Trailing separators, repeated separators and interior `.` components are lost when a path becomes components: a link directory configured as `libs/` reaches the command line as `-L libs/` in src/linker/mod.rs:206, and as `-L libs` in the model.
- CompileRun.IsModified: `SystemTime` values are integers.
- Linking.LinkRun: the outcome of the spawned linker is ignored by the source and is not an input here.
- `CompileCommand::compiler` and `CompileCommand::args` inside `generate_file` are modelled by `CompilerName` and `Args`. The generator works on a clone, and the model's functions are pure, so the configured command is never changed.
- The commented-out `Lang`/`CStd`/`CppStd` remodel and `Linker::as_str`: not compiled.
