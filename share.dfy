/** Sharing a file: a share string that carries the owner, the storage id and the unwrapped file key. */
module Sharing {
  import opened Wrappers
  import opened Text
  import opened VaultIndex
  import opened Errors
  import opened Oracles
  import opened FileAccess
  import opened Download
  import opened Reading

  /** The "%s:%s:%s" share string of ShareFile. */
  function ShareString(username: string, storageId: string, key: string): string
  {
    username + ":" + storageId + ":" + key
  }

  /**
   * ShareFile: the share string for the file at `vaultPath`. A missing entry, a folder
   * and a file key that cannot be unwrapped with the owner's password are refused.
   */
  function ShareFile(o: Oracles, index: Index, username: string, password: string, vaultPath: string)
    : (r: Result<string, Error>)
    ensures o.findEntry(index, vaultPath).None? ==> r == Err(NotFound(vaultPath))
    ensures o.findEntry(index, vaultPath).Some? && o.findEntry(index, vaultPath).value.Type == FolderType
            ==> r == Err(IsDirectory(vaultPath))
    ensures o.findEntry(index, vaultPath).Some? && o.findEntry(index, vaultPath).value.Type != FolderType ==>
      var e := o.findEntry(index, vaultPath).value;
      var key := UnwrapFileKey(o, e.FileKey, password, vaultPath);
      (key.Err? ==> r == Err(FileFailed(key.error)))
      && (key.Ok? ==> r == Ok(ShareString(username, e.RealName, o.encodeKey(key.value))))
  {
    match o.findEntry(index, vaultPath)
    case None => Err(NotFound(vaultPath))
    case Some(e) =>
      if e.Type == FolderType then Err(IsDirectory(vaultPath))
      else
        match UnwrapFileKey(o, e.FileKey, password, vaultPath)
        case Err(fe) => Err(FileFailed(fe))
        case Ok(fileKey) => Ok(ShareString(username, e.RealName, o.encodeKey(fileKey)))
  }

  /**
   * A share string ShareFile hands out, when none of its three fields holds ':', parses
   * back into the owner, the file's storage id as the reference and the encoded file key
   * as the share password; a plain read of it fetches "shared/<storage id>" of the owner
   * and decrypts it with the encoded file key.
   */
  lemma ShareFileParsesBack(o: Oracles, index: Index, username: string, password: string, vaultPath: string)
    requires ShareFile(o, index, username, password, vaultPath).Ok?
    requires var e := o.findEntry(index, vaultPath).value;
      ':' !in username && ':' !in e.RealName
      && ':' !in o.encodeKey(UnwrapFileKey(o, e.FileKey, password, vaultPath).value)
    ensures var e := o.findEntry(index, vaultPath).value;
      var key := o.encodeKey(UnwrapFileKey(o, e.FileKey, password, vaultPath).value);
      var share := ShareFile(o, index, username, password, vaultPath).value;
      ParseShareString(share) == Ok(ShareRequest(username, e.RealName, key, ""))
      && Split(share, ':') == [username, e.RealName, key]
      && (o.fetchRaw(username, SharedPath(e.RealName)).Err? ==>
            ReadSharedFile(o, share) == Err(FetchFailed(o.fetchRaw(username, SharedPath(e.RealName)).error)))
      && (o.fetchRaw(username, SharedPath(e.RealName)).Ok? ==>
            (ReadSharedFile(o, share).Ok? <==> o.decrypt(o.fetchRaw(username, SharedPath(e.RealName)).value, key).Some?))
  {
    var e := o.findEntry(index, vaultPath).value;
    var key := o.encodeKey(UnwrapFileKey(o, e.FileKey, password, vaultPath).value);
    ParseThreeParts(username, e.RealName, key);
  }
}
