/**
 * The steps every read of a stored file goes through: fetch the encrypted blob,
 * hex-decode the wrapped file key, unwrap it with a password, and decrypt the blob
 * with the file key. Download, directory download, read, shared download and
 * transfer all run these steps in this order and stop at the first that fails.
 */
module FileAccess {
  import opened Wrappers
  import opened Text
  import opened Errors
  import opened Oracles
  import Hex

  /** hex.DecodeString on the wrapped key, then Decrypt(wrapped, password). */
  function UnwrapFileKey(o: Oracles, fileKeyHex: string, password: string, path: string): (r: Result<Bytes, FileError>)
    ensures Hex.Decode(fileKeyHex).None? ==> r == Err(InvalidFileKey(path))
    ensures Hex.Decode(fileKeyHex).Some? && o.decrypt(Hex.Decode(fileKeyHex).value, password).None?
            ==> r == Err(FileKeyDecryptFailed(path))
    ensures r.Ok? <==> Hex.Decode(fileKeyHex).Some? && o.decrypt(Hex.Decode(fileKeyHex).value, password).Some?
    ensures r.Ok? ==> r.value == o.decrypt(Hex.Decode(fileKeyHex).value, password).value
  {
    match Hex.Decode(fileKeyHex)
    case None => Err(InvalidFileKey(path))
    case Some(wrapped) =>
      match o.decrypt(wrapped, password)
      case None => Err(FileKeyDecryptFailed(path))
      case Some(fileKey) => Ok(fileKey)
  }

  /** A key wrapped with Encrypt and written with hex.EncodeToString unwraps to the key, given a decrypt that inverts encrypt. */
  lemma UnwrapWrappedKey(o: Oracles, fileKey: Bytes, wrapped: Bytes, password: string, path: string)
    requires o.decrypt(wrapped, password) == Some(fileKey)
    ensures UnwrapFileKey(o, Hex.Encode(wrapped), password, path) == Ok(fileKey)
  {
    Hex.DecodeEncode(wrapped);
  }

  /** Fetch, unwrap the key and decrypt: the plaintext of the file stored under `storageId`. */
  function OpenStoredFile(o: Oracles, owner: string, password: string, storageId: string, fileKeyHex: string, path: string)
    : (r: Result<Bytes, FileError>)
    ensures o.fetchRaw(owner, storageId).Err? ==> r == Err(FetchFileFailed(path, o.fetchRaw(owner, storageId).error))
    ensures o.fetchRaw(owner, storageId).Ok? && UnwrapFileKey(o, fileKeyHex, password, path).Err?
            ==> r == Err(UnwrapFileKey(o, fileKeyHex, password, path).error)
    ensures r.Ok? <==> o.fetchRaw(owner, storageId).Ok? && UnwrapFileKey(o, fileKeyHex, password, path).Ok?
                       && o.decryptWithKey(o.fetchRaw(owner, storageId).value, UnwrapFileKey(o, fileKeyHex, password, path).value).Some?
    ensures o.fetchRaw(owner, storageId).Ok? && UnwrapFileKey(o, fileKeyHex, password, path).Ok?
            && o.decryptWithKey(o.fetchRaw(owner, storageId).value, UnwrapFileKey(o, fileKeyHex, password, path).value).None?
            ==> r == Err(ContentDecryptFailed(path))
    ensures r.Ok? ==>
      r.value == o.decryptWithKey(o.fetchRaw(owner, storageId).value, UnwrapFileKey(o, fileKeyHex, password, path).value).value
    ensures r.Err? ==> r.error.path == path
  {
    match o.fetchRaw(owner, storageId)
    case Err(cause) => Err(FetchFileFailed(path, cause))
    case Ok(blob) =>
      match UnwrapFileKey(o, fileKeyHex, password, path)
      case Err(e) => Err(e)
      case Ok(fileKey) =>
        match o.decryptWithKey(blob, fileKey)
        case None => Err(ContentDecryptFailed(path))
        case Some(data) => Ok(data)
  }
}
