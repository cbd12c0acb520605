/**
 * Uploading one file: fetch and decrypt the index (or start a new one when there is
 * none), ask before overwriting, encrypt the file with the password, and push the
 * file and the re-encrypted index in one commit.
 */
module Upload {
  import opened Wrappers
  import opened Text
  import opened VaultIndex
  import opened Errors
  import opened Oracles
  import opened Backend

  /** The overwrite prompt's answer, as read up to and including the newline, means yes. */
  predicate Confirmed(answer: string)
  {
    var response := ToLower(TrimSpace(answer));
    response == "y" || response == "yes"
  }

  lemma TrimmedEnter()
    ensures TrimSpace("\n") == ""
  {
    assert AllSpace("\n") by { assert IsSpace("\n"[0]); }
    TrimAllSpace("\n");
  }

  lemma TrimmedY()
    ensures TrimSpace("y\n") == "y"
  {
    assert "y\n"[..1] == "y" && "y\n"[1..] == "\n";
    assert AllSpace("\n") by { assert IsSpace("\n"[0]); }
    TrimSpaceUnique("y\n", "y", 0, 1);
  }

  lemma TrimmedYes()
    ensures TrimSpace("Yes\n") == "Yes"
  {
    assert "Yes\n"[..3] == "Yes" && "Yes\n"[3..] == "\n";
    assert AllSpace("\n") by { assert IsSpace("\n"[0]); }
    TrimSpaceUnique("Yes\n", "Yes", 0, 3);
  }

  lemma LoweredAnswers()
    ensures ToLower("") == "" && ToLower("y") == "y" && ToLower("Yes") == "yes"
  {
    var yes := ToLower("Yes");
    assert yes[0] == LowerChar('Y') == 'y';
    assert yes == "yes";
  }

  /** The default answer, a bare Enter, cancels. */
  lemma EnterCancels()
    ensures !Confirmed("\n")
  {
    TrimmedEnter();
    LoweredAnswers();
  }

  /** "y", typed with Enter, confirms. */
  lemma YConfirms()
    ensures Confirmed("y\n")
  {
    TrimmedY();
    LoweredAnswers();
  }

  /** "Yes", typed with Enter, confirms: the answer is compared without regard to case. */
  lemma YesConfirms()
    ensures Confirmed("Yes\n")
  {
    TrimmedYes();
    LoweredAnswers();
  }

  /** What one upload pushes: the storage name the file is written under, the index after the upload, and the files of the commit. */
  datatype Upload = Upload(realName: string, index: Index, files: map<string, Bytes>)

  /** The index an upload starts from: the remote one, or a new one when it cannot be fetched. */
  function StartingIndex(o: Oracles, username: string, password: string): (r: Result<Index, Error>)
    ensures o.fetchRaw(username, IndexBlob).Err? ==> r == Ok(NewIndex())
    ensures o.fetchRaw(username, IndexBlob).Ok? ==>
      var decoded := o.fromBytes(o.fetchRaw(username, IndexBlob).value, password);
      (decoded.None? <==> r == Err(IndexDecryptFailed)) && (decoded.Some? ==> r == Ok(decoded.value))
  {
    match o.fetchRaw(username, IndexBlob)
    case Err(_) => Ok(NewIndex())
    case Ok(rawIndex) =>
      match o.fromBytes(rawIndex, password)
      case None => Err(IndexDecryptFailed)
      case Some(index) => Ok(index)
  }

  /**
   * The upload of `source` to `vaultPath`, given that a new storage name is drawn as
   * `freshName`. An existing entry at `vaultPath` (looked up as a top-level key) must be
   * confirmed and keeps its storage name, and then the index is pushed as it was; a new
   * file gets `freshName` and an index entry.
   */
  function UploadPlan(o: Oracles, vaultPath: string, password: string, username: string,
                      answer: string, source: Option<Bytes>, freshName: string): (r: Result<Upload, Error>)
    ensures StartingIndex(o, username, password).Err? <==> r == Err(IndexDecryptFailed)
    ensures StartingIndex(o, username, password).Ok? ==>
      var index := StartingIndex(o, username, password).value;
      var existing := o.fetchRaw(username, IndexBlob).Ok? && vaultPath in index;
      var reuse := existing && index[vaultPath].RealName != "";
      var planned := if reuse then index else o.addFile(index, vaultPath, freshName);
      var proceeds := !(existing && !Confirmed(answer));
      var encrypted := proceeds && source.Some? && o.encrypt(source.value, password).Some?;
      (existing && !Confirmed(answer) <==> r == Err(UploadCancelled))
      && (proceeds && source.None? <==> r == Err(ReadSourceFailed))
      && (proceeds && source.Some? && o.encrypt(source.value, password).None? <==> r == Err(EncryptionFailed))
      && (encrypted && o.toBytes(planned, password).None? <==> r == Err(IndexEncryptFailed))
      && (encrypted && o.toBytes(planned, password).Some? <==> r.Ok?)
      && (r.Ok? ==>
            r.value.realName == (if reuse then index[vaultPath].RealName else freshName)
            && r.value.index == planned
            && r.value.files.Keys == {r.value.realName, IndexBlob}
            && r.value.files[IndexBlob] == o.toBytes(planned, password).value
            && (r.value.realName != IndexBlob ==> r.value.files[r.value.realName] == o.encrypt(source.value, password).value))
    ensures r.Err? ==> r.error in {IndexDecryptFailed, UploadCancelled, ReadSourceFailed, EncryptionFailed, IndexEncryptFailed}
  {
    match StartingIndex(o, username, password)
    case Err(e) => Err(e)
    case Ok(index) =>
      var existing := o.fetchRaw(username, IndexBlob).Ok? && vaultPath in index;
      if existing && !Confirmed(answer) then Err(UploadCancelled)
      else
        var reused := if existing then index[vaultPath].RealName else "";
        match source
        case None => Err(ReadSourceFailed)
        case Some(content) =>
          match o.encrypt(content, password)
          case None => Err(EncryptionFailed)
          case Some(encryptedFile) =>
            var realName := if reused == "" then freshName else reused;
            var index' := if reused == "" then o.addFile(index, vaultPath, freshName) else index;
            match o.toBytes(index', password)
            case None => Err(IndexEncryptFailed)
            case Some(encryptedIndex) =>
              Ok(Upload(realName, index', map[realName := encryptedFile, IndexBlob := encryptedIndex]))
  }

  /** With no index on the remote, however the fetch failed, the upload starts a new vault holding just this file. */
  lemma MissingIndexStartsNewVault(o: Oracles, vaultPath: string, password: string, username: string,
                                   answer: string, source: Option<Bytes>, freshName: string)
    requires o.fetchRaw(username, IndexBlob).Err?
    ensures var r := UploadPlan(o, vaultPath, password, username, answer, source, freshName);
      r.Ok? ==> r.value.realName == freshName && r.value.index == o.addFile(NewIndex(), vaultPath, freshName)
    ensures var r := UploadPlan(o, vaultPath, password, username, answer, source, freshName);
      r != Err(UploadCancelled)
  {
  }

  /**
   * UploadFile: push the planned files in one commit "Nexus: Updated <vaultPath>" with
   * the push helper's own author. The storage name drawn for a new file is returned.
   */
  method UploadFile(o: Oracles, vaultPath: string, password: string, username: string,
                    answer: string, source: Option<Bytes>, remote: Remote, pushAccepted: bool)
    returns (err: Option<Error>, realName: string)
    modifies remote
    ensures var plan := UploadPlan(o, vaultPath, password, username, answer, source, realName);
      (plan.Err? ==> err == Some(plan.error) && unchanged(remote))
      && (plan.Ok? && !pushAccepted ==> err == Some(PushFailed) && unchanged(remote))
      && (plan.Ok? && pushAccepted ==>
            err == None && realName == plan.value.realName
            && remote.Blobs == old(remote.Blobs) + plan.value.files
            && remote.History == old(remote.History) + [Commit("Nexus: Updated " + vaultPath, None)])
  {
    realName := "";
    var index: Index;
    var rawIndex := o.fetchRaw(username, IndexBlob);
    if rawIndex.Err? {
      index := NewIndex();
    } else {
      var decoded := o.fromBytes(rawIndex.value, password);
      if decoded.None? {
        return Some(IndexDecryptFailed), realName;
      }
      index := decoded.value;
      if vaultPath in index {
        if !Confirmed(answer) {
          return Some(UploadCancelled), realName;
        }
        realName := index[vaultPath].RealName;
      }
    }
    if source.None? {
      return Some(ReadSourceFailed), realName;
    }
    var encryptedFile := o.encrypt(source.value, password);
    if encryptedFile.None? {
      return Some(EncryptionFailed), realName;
    }
    if realName == "" {
      realName :| true;
      index := o.addFile(index, vaultPath, realName);
    }
    var encryptedIndex := o.toBytes(index, password);
    if encryptedIndex.None? {
      return Some(IndexEncryptFailed), realName;
    }
    var filesToPush := map[realName := encryptedFile.value, IndexBlob := encryptedIndex.value];
    var ok := remote.PushFiles(filesToPush, "Nexus: Updated " + vaultPath, None, pushAccepted);
    err := if ok then None else Some(PushFailed);
  }
}
