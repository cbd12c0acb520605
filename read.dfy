/** Printing a file to standard output: the owner's own files, and files shared with a plain share string. */
module Reading {
  import opened Wrappers
  import opened Text
  import opened VaultIndex
  import opened Errors
  import opened Oracles
  import opened FileAccess
  import opened Download

  /** The bytes written to standard output for `data`: the data, then a newline unless it already ends in one. */
  function EnsureTrailingNewline(data: Bytes): (out: Bytes)
    ensures |out| > 0 && out[|out| - 1] == NewlineByte
    ensures |out| == |data| || |out| == |data| + 1
    ensures out[..|data|] == data
    ensures |out| == |data| + 1 <==> data == [] || data[|data| - 1] != NewlineByte
  {
    if |data| == 0 || data[|data| - 1] != NewlineByte then data + [NewlineByte] else data
  }

  /** Output that already ends in a newline is printed as it is. */
  lemma EnsureTrailingNewlineIdempotent(data: Bytes)
    ensures EnsureTrailingNewline(EnsureTrailingNewline(data)) == EnsureTrailingNewline(data)
  {
  }

  /**
   * ReadFile: what is printed for the file at `vaultPath`. It fails exactly where
   * DownloadFile fails, with the same error, and otherwise prints what DownloadFile
   * would write, newline-terminated.
   */
  function ReadFile(o: Oracles, index: Index, username: string, password: string, vaultPath: string)
    : (r: Result<Bytes, Error>)
    ensures var d := DownloadFile(o, index, username, password, vaultPath);
      (r.Err? <==> d.Err?) && (r.Err? ==> r.error == d.error)
      && (r.Ok? ==> r.value == EnsureTrailingNewline(d.value))
  {
    match o.findEntry(index, vaultPath)
    case None => Err(NotFound(vaultPath))
    case Some(e) =>
      if e.Type == FolderType then Err(IsDirectory(vaultPath))
      else
        match o.fetchRaw(username, e.RealName)
        case Err(cause) => Err(FileFailed(FetchFileFailed(vaultPath, cause)))
        case Ok(blob) =>
          match UnwrapFileKey(o, e.FileKey, password, vaultPath)
          case Err(fe) => Err(FileFailed(fe))
          case Ok(fileKey) =>
            match o.decryptWithKey(blob, fileKey)
            case None => Err(FileFailed(ContentDecryptFailed(vaultPath)))
            case Some(data) => Ok(EnsureTrailingNewline(data))
  }

  /**
   * ReadSharedFile: what is printed for a share string of exactly three parts. The
   * blob stored at "shared/<reference>" is decrypted with the share password and
   * printed as it is.
   */
  function ReadSharedFile(o: Oracles, shareString: string): (r: Result<Bytes, Error>)
    ensures |Split(shareString, ':')| != 3 <==> r == Err(InvalidShareString)
    ensures |Split(shareString, ':')| == 3 ==>
      var parts := Split(shareString, ':');
      var fetched := o.fetchRaw(parts[0], SharedPath(parts[1]));
      (fetched.Err? ==> r == Err(FetchFailed(fetched.error)))
      && (fetched.Ok? && o.decrypt(fetched.value, parts[2]).None? ==> r == Err(InvalidSharePassword))
      && (fetched.Ok? && o.decrypt(fetched.value, parts[2]).Some? ==>
            r == Ok(EnsureTrailingNewline(o.decrypt(fetched.value, parts[2]).value)))
  {
    var parts := Split(shareString, ':');
    if |parts| != 3 then Err(InvalidShareString)
    else
      match o.fetchRaw(parts[0], SharedPath(parts[1]))
      case Err(cause) => Err(FetchFailed(cause))
      case Ok(blob) =>
        match o.decrypt(blob, parts[2])
        case None => Err(InvalidSharePassword)
        case Some(data) => Ok(EnsureTrailingNewline(data))
  }

  /**
   * Every share string ReadSharedFile accepts is one DownloadSharedFile accepts too, with
   * no file name; both fetch the same blob and decrypt it with the same password, but
   * ReadSharedFile prints it where DownloadSharedFile reads it as a pointer to the file.
   */
  lemma ReadSharedAcceptsLessThanDownload(o: Oracles, shareString: string)
    requires ReadSharedFile(o, shareString) != Err(InvalidShareString)
    ensures ParseShareString(shareString).Ok? && ParseShareString(shareString).value.filename == ""
    ensures var req := ParseShareString(shareString).value;
      var fetched := o.fetchRaw(req.username, SharedPath(req.reference));
      ReadSharedFile(o, shareString).Ok? <==> fetched.Ok? && o.decrypt(fetched.value, req.sharePassword).Some?
  {
  }
}
