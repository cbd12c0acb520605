/** Purging the vault: force-push one empty commit over the remote and empty the local index. */
module Purge {
  import opened Wrappers
  import opened VaultIndex
  import opened Errors
  import opened Backend
  import opened Sessions

  const PurgeMessage := "Nexus: PURGE VAULT"
  const PurgeAuthor := Signature("Nexus", "nexus@cli.io")

  /**
   * PurgeVault. `pushAccepted` and `saveWritten` are the outcomes of the force push and
   * of the write of the session file. The local index is emptied only once the remote
   * has been replaced.
   */
  method PurgeVault(session: Session, remote: Remote, pushAccepted: bool, saveWritten: bool)
    returns (err: Option<Error>)
    modifies session, remote
    ensures !pushAccepted ==> err == Some(PushFailed) && unchanged(session) && unchanged(remote)
    ensures pushAccepted ==>
      remote.Blobs == map[] && remote.History == [Commit(PurgeMessage, Some(PurgeAuthor))]
      && session.Index == NewIndex()
      && session.Username == old(session.Username) && session.Password == old(session.Password)
      && session.RawKey == old(session.RawKey)
      && (saveWritten ==> err == None && session.Saved == NewIndex())
      && (!saveWritten ==> err == Some(SaveFailed) && session.Saved == old(session.Saved))
  {
    var ok := remote.ForcePushEmpty(PurgeMessage, Some(PurgeAuthor), pushAccepted);
    if !ok {
      return Some(PushFailed);
    }
    session.Index := NewIndex();
    err := session.Save(saveWritten);
  }
}
