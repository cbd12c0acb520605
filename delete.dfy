/**
 * Deleting one file: clone the remote, drop the file's storage blob and its index
 * entry, push the re-encrypted index in one commit, then save the local session.
 */
module Deletion {
  import opened Wrappers
  import opened Text
  import opened VaultIndex
  import opened Errors
  import opened Oracles
  import opened Backend
  import opened Sessions

  const NexusAuthor := Signature("Nexus", "nexus@cli.io")

  /** The index blob DeleteFile writes: ToBytes' result, or nothing at all when ToBytes fails (its error is ignored). */
  function IndexBlobAfterDelete(o: Oracles, index: Index, password: string): (b: Bytes)
    ensures o.toBytes(index, password).Some? ==> b == o.toBytes(index, password).value
    ensures o.toBytes(index, password).None? ==> b == []
  {
    match o.toBytes(index, password)
    case None => []
    case Some(bytes) => bytes
  }

  /**
   * DeleteFile. `cloneOk`, `pushAccepted` and `saveWritten` are the outcomes of the
   * clone, the push and the write of the session file. The entry is looked up as a
   * top-level key of the session's index and is removed from it in memory before the
   * push, so a failed push leaves it removed in memory but not in the saved session.
   * `warned` reports the storage blob already missing from the remote.
   */
  method DeleteFile(o: Oracles, vaultPath: string, session: Session, remote: Remote,
                    cloneOk: bool, pushAccepted: bool, saveWritten: bool)
    returns (err: Option<Error>, warned: bool)
    modifies session, remote
    ensures !cloneOk ==> err == Some(CloneFailed) && !warned && unchanged(session) && unchanged(remote)
    ensures cloneOk && vaultPath !in old(session.Index) ==>
              err == Some(NotFound(vaultPath)) && !warned && unchanged(session) && unchanged(remote)
    ensures cloneOk && vaultPath in old(session.Index) ==>
      var entry := old(session.Index)[vaultPath];
      session.Index == old(session.Index) - {vaultPath}
      && warned == (entry.RealName !in old(remote.Blobs))
      && session.Username == old(session.Username) && session.Password == old(session.Password)
      && session.RawKey == old(session.RawKey)
      && (!pushAccepted ==> err == Some(PushFailed) && unchanged(remote) && session.Saved == old(session.Saved))
      && (pushAccepted ==>
            remote.Blobs == (old(remote.Blobs) - {entry.RealName})
                            [IndexBlob := IndexBlobAfterDelete(o, session.Index, session.Password)]
            && remote.History == old(remote.History) + [Commit("Nexus: Deleted " + vaultPath, Some(NexusAuthor))]
            && (saveWritten ==> err == None && session.Saved == session.Index)
            && (!saveWritten ==> err == Some(SaveFailed) && session.Saved == old(session.Saved)))
  {
    warned := false;
    if !cloneOk {
      return Some(CloneFailed), warned;
    }
    if vaultPath !in session.Index {
      return Some(NotFound(vaultPath)), warned;
    }
    var entry := session.Index[vaultPath];
    warned := entry.RealName !in remote.Blobs;
    session.Index := session.Index - {vaultPath};
    var newIndexBytes := IndexBlobAfterDelete(o, session.Index, session.Password);
    var ok := remote.PushRemoval(entry.RealName, map[IndexBlob := newIndexBytes],
                                 "Nexus: Deleted " + vaultPath, Some(NexusAuthor), pushAccepted);
    if !ok {
      return Some(PushFailed), warned;
    }
    err := session.Save(saveWritten);
  }
}
