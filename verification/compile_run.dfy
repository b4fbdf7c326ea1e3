/**
 * Incremental compilation (src/compiler/mod.rs, `get_modified_files` and
 * `run`): which files are stale against a metadata snapshot, and the
 * sequential, fail-fast compile loop over them. The process layer is an
 * input: the outcome of the i-th spawn is `outcomes[i]`.
 */
module CompileRun {
  import opened Base
  import opened Paths
  import opened Env
  import opened Compilation
  import opened CompileFlags

  /** The staleness test for one file, following the nested checks of the source. */
  function IsModified(f: CompilationFile, fs: FileSystem): (stale: bool)
    ensures stale <==>
              || f.out !in fs
              || f.src !in fs
              || fs[f.src].modified.None?
              || fs[f.out].modified.None?
              || fs[f.out].modified.value < fs[f.src].modified.value
  {
    if f.out !in fs then true
    else
      match (MetadataOf(fs, f.src), MetadataOf(fs, f.out))
      case (Some(srcMeta), Some(outMeta)) =>
        (match (srcMeta.modified, outMeta.modified)
         case (Some(srcTime), Some(outTime)) => outTime < srcTime
         case _ => true)
      case _ => true
  }

  /** `get_modified_files`: the stale files, in file order. */
  function ModifiedFiles(files: seq<CompilationFile>, fs: FileSystem): (stale: seq<CompilationFile>)
    ensures forall f :: f in stale <==> f in files && IsModified(f, fs)
    ensures IsSubsequence(stale, files)
    decreases |files|
  {
    if |files| == 0 then []
    else
      var init := files[..|files| - 1];
      var last := files[|files| - 1];
      var rest := ModifiedFiles(init, fs);
      assert files == init + [last];
      SubsequenceExtendRight(rest, init, last);
      if IsModified(last, fs) then rest + [last] else rest
  }

  /** A file whose object is as new as its source is fresh: equal times do not rebuild. */
  lemma EqualTimesAreFresh(f: CompilationFile, fs: FileSystem, t: int)
    requires f.src in fs && f.out in fs
    requires fs[f.src].modified == Some(t) && fs[f.out].modified == Some(t)
    ensures !IsModified(f, fs)
  {
  }

  /** One file: it is kept exactly when it is stale. */
  lemma ModifiedFilesOne(f: CompilationFile, fs: FileSystem)
    ensures ModifiedFiles([f], fs) == if IsModified(f, fs) then [f] else []
  {
    assert [f][..0] == [];
  }

  /** The filter works file by file: it distributes over concatenation, so every copy of
      a stale file is kept, each in its place. */
  lemma {:induction false} ModifiedFilesAppend(a: seq<CompilationFile>, b: seq<CompilationFile>, fs: FileSystem)
    ensures ModifiedFiles(a + b, fs) == ModifiedFiles(a, fs) + ModifiedFiles(b, fs)
    decreases |b|
  {
    if |b| == 0 {
      assert a + b == a;
    } else {
      var b' := b[..|b| - 1];
      var last := b[|b| - 1];
      ModifiedFilesAppend(a, b', fs);
      assert (a + b)[..|a + b| - 1] == a + b';
      assert (a + b)[|a + b| - 1] == last;
      AppendAssoc(ModifiedFiles(a, fs), ModifiedFiles(b', fs), [last]);
    }
  }

  /** The snapshot after a build has written every object at time `t`. */
  function WriteObjects(files: seq<CompilationFile>, fs: FileSystem, t: int): (r: FileSystem)
    ensures forall f :: f in files ==> f.out in r && r[f.out].modified == Some(t)
    ensures forall p :: p in fs && (forall f :: f in files ==> f.out != p) ==> p in r && r[p] == fs[p]
    decreases |files|
  {
    if |files| == 0 then fs
    else
      var init := files[..|files| - 1];
      assert files == init + [files[|files| - 1]];
      WriteObjects(init, fs, t)[files[|files| - 1].out := Metadata(Some(t))]
  }

  /** A file whose source was read no later than `t` is fresh once the build has written
      its object at `t`, unless some object overwrote its source. */
  lemma BuiltFileIsFresh(files: seq<CompilationFile>, fs: FileSystem, t: int, f: CompilationFile)
    requires f in files && f.src in fs && fs[f.src].modified.Some? && fs[f.src].modified.value <= t
    requires forall g :: g in files ==> g.out != f.src
    ensures !IsModified(f, WriteObjects(files, fs, t))
  {
  }

  /** After a build that writes every object no earlier than the sources' times, and
      writes no object over a source, nothing is stale. */
  lemma NothingStaleAfterBuild(files: seq<CompilationFile>, fs: FileSystem, t: int)
    requires forall f :: f in files ==>
               f.src in fs && fs[f.src].modified.Some? && fs[f.src].modified.value <= t
    requires forall f, g :: f in files && g in files ==> f.out != g.src
    ensures ModifiedFiles(files, WriteObjects(files, fs, t)) == []
  {
    var stale := ModifiedFiles(files, WriteObjects(files, fs, t));
    if |stale| > 0 {
      var f := stale[0];
      assert f in stale;
      BuiltFileIsFresh(files, fs, t, f);
      assert false;
    }
  }

  /** Touching one source so that it is newer than its object makes exactly that file
      stale; files that do not involve the touched path keep their status. */
  lemma TouchingASourceMarksOnlyItsFile(files: seq<CompilationFile>, fs: FileSystem, k: nat, t: int)
    requires k < |files| && files[k].out in fs && fs[files[k].out].modified.Some?
    requires fs[files[k].out].modified.value < t && files[k].out != files[k].src
    ensures var fs' := fs[files[k].src := Metadata(Some(t))];
            && files[k] in ModifiedFiles(files, fs')
            && forall f :: f in files && f.src != files[k].src && f.out != files[k].src ==>
                 (f in ModifiedFiles(files, fs') <==> f in ModifiedFiles(files, fs))
  {
    assert files[k] in files;
  }

  /** The compiler invocation of every stale file, in order. */
  function Plan(cmd: CompileCommand, stale: seq<CompilationFile>): (plan: seq<Invocation>)
    ensures |plan| == |stale|
    ensures forall i :: 0 <= i < |stale| ==> plan[i] == CompileInvocation(cmd, stale[i])
  {
    seq(|stale|, i requires 0 <= i < |stale| => CompileInvocation(cmd, stale[i]))
  }

  /** The sequential, fail-fast loop of `run` over a planned list of invocations: every
      invocation is attempted in order until one exits unsuccessfully. */
  method RunPlan(plan: seq<Invocation>, outcomes: seq<Outcome>)
    returns (status: Status, attempted: seq<Invocation>)
    requires |outcomes| == |plan|
    ensures |attempted| <= |plan| && attempted == plan[..|attempted|]
    ensures status == Aborted <==> exists i :: 0 <= i < |outcomes| && Failed(outcomes[i])
    ensures status == Aborted ==>
              && |attempted| > 0
              && Failed(outcomes[|attempted| - 1])
              && forall i :: 0 <= i < |attempted| - 1 ==> !Failed(outcomes[i])
    ensures status == Success ==> |attempted| == |plan|
  {
    attempted := [];
    var i := 0;
    while i < |plan|
      invariant 0 <= i <= |plan|
      invariant attempted == plan[..i]
      invariant forall j :: 0 <= j < i ==> !Failed(outcomes[j])
    {
      attempted := attempted + [plan[i]];
      if Failed(outcomes[i]) {
        return Aborted, attempted;
      }
      // a spawn error is only logged: the loop moves on to the next file
      i := i + 1;
    }
    status := Success;
  }

  /** `run` (after the object directory is created): compiles the stale files in order,
      stops at the first compiler that exits unsuccessfully and reports `Aborted`; a file
      whose compiler could not be spawned is skipped over. */
  method Run(cmd: CompileCommand, fs: FileSystem, outcomes: seq<Outcome>)
    returns (status: Status, attempted: seq<Invocation>)
    requires |outcomes| == |ModifiedFiles(cmd.files, fs)|
    ensures var stale := ModifiedFiles(cmd.files, fs);
            && |attempted| <= |stale|
            && forall i :: 0 <= i < |attempted| ==> attempted[i] == CompileInvocation(cmd, stale[i])
    ensures status == Aborted <==> exists i :: 0 <= i < |outcomes| && Failed(outcomes[i])
    ensures status == Aborted ==>
              && |attempted| > 0
              && Failed(outcomes[|attempted| - 1])
              && forall i :: 0 <= i < |attempted| - 1 ==> !Failed(outcomes[i])
    ensures status == Success ==> |attempted| == |outcomes|
  {
    status, attempted := RunPlan(Plan(cmd, ModifiedFiles(cmd.files, fs)), outcomes);
  }
}
