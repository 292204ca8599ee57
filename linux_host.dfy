/**
 * A host that behaves like `tokio::fs` on Linux: `metadata` follows links,
 * and a directory opens but cannot be read.
 */
module LinuxHost {
  import opened Wrappers
  import opened Paths
  import opened CheckInputs
  import opened Effects
  import opened Execution

  /** `tokio::fs::metadata` follows symbolic links, so it never reports one. */
  ghost predicate FollowsLinks(host: Host) {
    forall path :: host.metadata(path).Ok? ==> !host.metadata(path).value.isSymlink
  }

  /** Opening a directory succeeds, but reading from it fails (`EISDIR`). */
  ghost predicate DirectoriesUnreadable(host: Host) {
    forall path :: host.metadata(path).Ok? && host.metadata(path).value.isDir ==> host.read(path).Err?
  }

  /** On such a host, every path that can be probed is neither a link nor a directory. */
  lemma ProbedIsNeitherLinkNorDirectory(path: Path, host: Host)
    requires FollowsLinks(host) && DirectoriesUnreadable(host)
    ensures Probe(path, host).Ok? ==>
              !Probe(path, host).value.fileMetadata.isSymlink && !Probe(path, host).value.fileMetadata.isDir
  {
    if Probe(path, host).Ok? {
      assert host.metadata(path).Ok?;
      assert Probe(path, host).value.fileMetadata == host.metadata(path).value;
    }
  }
}
