/**
 * The host environment as the planners see it, passed in as values: the
 * target operating system (instead of `#[cfg(target_os)]`), a snapshot of
 * file metadata, process outcomes and the invocations handed to the process
 * layer.
 */
module Env {
  import opened Base
  import opened Paths

  datatype OS = Windows | MacOS | Linux

  /** Readable metadata; `modified` is `None` when the modification time cannot be read. */
  datatype Metadata = Metadata(modified: Option<int>)

  /** A path is a key exactly when `metadata()` succeeds on it; `exists()` is the same test. */
  type FileSystem = map<Path, Metadata>

  function MetadataOf(fs: FileSystem, p: Path): (r: Option<Metadata>)
    ensures r.Some? <==> p in fs
    ensures r.Some? ==> r.value == fs[p]
  {
    if p in fs then Some(fs[p]) else None
  }

  /** What the process layer reports for one spawn. */
  datatype Outcome = SpawnError | Exit(success: bool)

  predicate Failed(o: Outcome) {
    o.Exit? && !o.success
  }

  /** A process to spawn: executable, argument list and working directory. */
  datatype Invocation = Invocation(program: string, args: seq<string>, cwd: Path)
}
